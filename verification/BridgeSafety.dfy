/** Minting is exactly-once and conserves supply, over every run of the bridge. */
module BridgeSafety {
  import opened Wrappers
  import opened BridgeSpec

  ghost predicate Minted(s: State, k: Key) {
    exists i :: 0 <= i < |s.log| && s.log[i].key == k
  }

  /** Each key is minted at most once, and exactly the minted keys are `Handled`. */
  ghost predicate Safe(s: State) {
    && (forall i, j :: 0 <= i < j < |s.log| ==> s.log[i].key != s.log[j].key)
    && (forall k :: Minted(s, k) <==> StatusOf(s, k).Handled?)
  }

  // ----- what one transition may do to the records, the log and the money -----

  ghost predicate SameMoney(s: State, s': State) {
    s'.log == s.log && s'.balances == s.balances && s'.issuance == s.issuance
  }

  /** Nothing is minted, and no record becomes or stops being `Handled`. */
  ghost predicate Quiet(s: State, s': State) {
    && SameMoney(s, s')
    && (forall k :: StatusOf(s, k).Handled? ==> DetailOf(s', k) == DetailOf(s, k))
    && (forall k :: StatusOf(s', k).Handled? ==> StatusOf(s, k).Handled?)
  }

  /** Exactly one mint, of the unhandled key `k`, in an unfrozen module. */
  ghost predicate Mints(s: State, s': State, k: Key) {
    && !s.frozen
    && !StatusOf(s, k).Handled? && StatusOf(s', k).Handled?
    && (forall other :: other != k ==> DetailOf(s', other) == DetailOf(s, other))
    && |s'.log| == |s.log| + 1
    && var m := s'.log[|s.log|];
       && m.key == k && m.block == s.block
       && s'.log == s.log + [m]
       && s'.balances == Deposit(s, k.recipient, m.amount).balances
       && s'.issuance == Deposit(s, k.recipient, m.amount).issuance
  }

  ghost predicate Lawful(s: State, s': State) {
    Quiet(s, s') || exists k :: Mints(s, s', k)
  }

  /** A successful issue deposits and logs `amount` for `k`; a failed one changes nothing. */
  ghost predicate Issued(s: State, t: Transition, k: Key, amount: Balance) {
    var s' := t.0;
    && s'.details == s.details && s'.queue == s.queue && s'.block == s.block
    && s'.frozen == s.frozen && s'.timelock == s.timelock
    && (t.1.Err? ==> s' == s)
    && (t.1.Ok? ==>
          && |s'.log| == |s.log| + 1
          && s'.log == s.log + [s'.log[|s.log|]]
          && s'.log[|s.log|].key == k && s'.log[|s.log|].amount == amount && s'.log[|s.log|].block == s.block
          && s'.balances == Deposit(s, k.recipient, amount).balances
          && s'.issuance == Deposit(s, k.recipient, amount).issuance)
  }

  lemma IssueLimitedShape(s: State, k: Key, amount: Balance, did: Did, interval: Block)
    ensures Issued(s, IssueLimited(s, k, amount, did, interval), k, amount)
  {
  }

  lemma IssueShape(s: State, env: Env, k: Key, amount: Balance, exemptedDid: Option<Did>)
    ensures Issued(s, Issue(s, env, k, amount, exemptedDid), k, amount)
  {
    if exemptedDid.None? && k.recipient in env.cdd && s.duration != 0 {
      IssueLimitedShape(s, k, amount, env.cdd[k.recipient], s.block / s.duration);
    }
  }

  lemma HandleLaterIsQuiet(s: State, env: Env, tx: BridgeTx, timelock: Block)
    ensures Quiet(s, HandleLater(s, env, tx, DetailOf(s, KeyOf(tx)), timelock).0)
  {
  }

  lemma HandleNowIsLawful(s: State, env: Env, tx: BridgeTx, manual: bool, exemptedDid: Option<Did>)
    ensures var s' := HandleNow(s, env, tx, DetailOf(s, KeyOf(tx)), manual, exemptedDid).0;
            Quiet(s, s') || Mints(s, s', KeyOf(tx))
  {
    var d := DetailOf(s, KeyOf(tx));
    IssueShape(s, env, KeyOf(tx), if manual then d.amount else tx.amount, exemptedDid);
    HandleLaterIsQuiet(s, env, tx, s.timelock);
  }

  /** Going from `Frozen` back to `Absent` first makes no difference to what is lawful. */
  lemma LawfulAfterThaw(s: State, k: Key, d: Detail, s': State)
    requires StatusOf(s, k).Frozen? && d.status.Absent?
    requires Quiet(Put(s, k, d), s') || Mints(Put(s, k, d), s', k)
    ensures Lawful(s, s')
  {
    var mid := Put(s, k, d);
    if Mints(mid, s', k) {
      assert Mints(s, s', k);
    } else {
      assert Quiet(s, s');
    }
  }

  lemma UnfreezeOneIsLawful(s: State, env: Env, tx: BridgeTx)
    ensures Lawful(s, UnfreezeOne(s, env, tx))
  {
    var k, d := KeyOf(tx), DetailOf(s, KeyOf(tx));
    if d.status.Frozen? {
      var absent := d.(status := Absent);
      HandleNowIsLawful(Put(s, k, absent), env, tx, true, None);
      LawfulAfterThaw(s, k, absent, UnfreezeOne(s, env, tx));
    }
  }

  // ----- the promises of a step, closed under composition -----

  /** The log only grows, handled records are final, and a frozen module mints nothing. */
  ghost predicate Keeps(s: State, s': State) {
    && s.log <= s'.log
    && (forall k :: StatusOf(s, k).Handled? ==> DetailOf(s', k) == DetailOf(s, k))
    && (s.frozen ==> SameMoney(s, s'))
    && (Safe(s) ==> Safe(s'))
  }

  lemma LawfulKeeps(s: State, s': State)
    requires Lawful(s, s')
    ensures Keeps(s, s')
  {
    if Quiet(s, s') {
      assert forall k :: Minted(s', k) <==> Minted(s, k);
    } else {
      var k :| Mints(s, s', k);
      assert s'.log[|s.log|].key == k;
      if Safe(s) {
        assert !Minted(s, k);
        forall other ensures Minted(s', other) <==> StatusOf(s', other).Handled? {
          if Minted(s, other) {
            var i :| 0 <= i < |s.log| && s.log[i].key == other;
            assert s'.log[i].key == other;
          }
          if Minted(s', other) && other != k {
            var i :| 0 <= i < |s'.log| && s'.log[i].key == other;
            assert s.log[i].key == other;
          }
        }
      }
    }
  }

  lemma KeepsComposes(s1: State, s2: State, s3: State)
    requires Keeps(s1, s2) && Keeps(s2, s3) && s2.frozen == s1.frozen
    ensures Keeps(s1, s3)
  {
  }

  lemma UnfreezeOneKeepsFrozen(s: State, env: Env, tx: BridgeTx)
    ensures UnfreezeOne(s, env, tx).frozen == s.frozen
  {
    var absent := DetailOf(s, KeyOf(tx)).(status := Absent);
    IssueShape(Put(s, KeyOf(tx), absent), env, KeyOf(tx), absent.amount, None);
  }

  lemma {:induction false} FreezeAllIsQuiet(s: State, txs: seq<BridgeTx>)
    ensures Quiet(s, FreezeAll(s, txs))
  {
    if txs != [] {
      FreezeAllIsQuiet(s, txs[..|txs| - 1]);
    }
  }

  lemma {:induction false} UnfreezeAllKeeps(s: State, env: Env, txs: seq<BridgeTx>)
    ensures UnfreezeAll(s, env, txs).frozen == s.frozen
    ensures Keeps(s, UnfreezeAll(s, env, txs))
  {
    if txs != [] {
      var mid, tx := UnfreezeAll(s, env, txs[..|txs| - 1]), txs[|txs| - 1];
      UnfreezeAllKeeps(s, env, txs[..|txs| - 1]);
      UnfreezeOneIsLawful(mid, env, tx);
      UnfreezeOneKeepsFrozen(mid, env, tx);
      LawfulKeeps(mid, UnfreezeOne(mid, env, tx));
      KeepsComposes(s, mid, UnfreezeOne(mid, env, tx));
    } else {
      LawfulKeeps(s, s);
    }
  }

  lemma HandleTxIsLawful(s: State, env: Env, origin: Origin, tx: BridgeTx)
    ensures Lawful(s, HandleTx(s, env, origin, tx).0)
  {
    HandleNowIsLawful(s, env, tx, false, None);
    HandleNowIsLawful(s, env, tx, true, None);
    HandleLaterIsQuiet(s, env, tx, s.timelock);
  }

  lemma ForceHandleTxIsLawful(s: State, env: Env, origin: Origin, tx: BridgeTx)
    ensures Lawful(s, ForceHandleTx(s, env, origin, tx).0)
  {
    if tx.recipient in env.cdd {
      HandleNowIsLawful(s, env, tx, false, Some(env.cdd[tx.recipient]));
    }
  }

  lemma ScheduledTxIsLawful(s: State, env: Env, origin: Origin, tx: BridgeTx)
    ensures Lawful(s, HandleScheduledTx(s, env, origin, tx).0)
  {
    HandleNowIsLawful(s, env, tx, false, None);
  }

  lemma RemoveIsQuiet(s: State, txs: seq<BridgeTx>)
    requires AllFrozen(s, txs)
    ensures Quiet(s, s.(details := s.details - Keys(txs)))
  {
    forall k | k in Keys(txs) ensures StatusOf(s, k).Frozen? {
      var i :| 0 <= i < |txs| && KeyOf(txs[i]) == k;
    }
  }

  lemma PerformIsLawful(s: State, env: Env, origin: Origin, call: Call)
    requires !call.UnfreezeTxs?
    ensures Lawful(s, Perform(s, env, origin, call).0)
  {
    match call
    case HandleBridgeTx(tx) => HandleTxIsLawful(s, env, origin, tx);
    case ForceHandleBridgeTx(tx) => ForceHandleTxIsLawful(s, env, origin, tx);
    case HandleScheduledBridgeTx(tx) => ScheduledTxIsLawful(s, env, origin, tx);
    case FreezeTxs(txs) => FreezeAllIsQuiet(s, txs);
    case RemoveTxs(txs) =>
      if AllFrozen(s, txs) {
        RemoveIsQuiet(s, txs);
      }
    case _ =>
  }

  lemma LawfulAfterDequeue(s: State, c: Scheduled, s': State)
    requires Lawful(s.(queue := s.queue - multiset{c}), s')
    ensures Lawful(s, s')
  {
    var mid := s.(queue := s.queue - multiset{c});
    if Quiet(mid, s') {
      assert Quiet(s, s');
    } else {
      var k :| Mints(mid, s', k);
      assert Mints(s, s', k);
    }
  }

  lemma FireIsLawful(s: State, env: Env, c: Scheduled)
    ensures Lawful(s, Step(s, env, Fire(c)))
  {
    if c in s.queue && c.at <= s.block {
      ScheduledTxIsLawful(s.(queue := s.queue - multiset{c}), env, Root, c.tx);
      LawfulAfterDequeue(s, c, Step(s, env, Fire(c)));
    } else {
      assert Quiet(s, s);
    }
  }

  /** A step mints at most one key, except that `unfreeze_txs` is a sequence of such transitions. */
  lemma StepIsLawful(s: State, env: Env, e: Event)
    requires !(e.Submit? && e.call.UnfreezeTxs?)
    ensures Lawful(s, Step(s, env, e))
  {
    match e
    case Advance(to) =>
    case Fire(c) => FireIsLawful(s, env, c);
    case Submit(origin, call) => PerformIsLawful(s, env, origin, call);
  }

  /** No step of any kind mints a key twice, un-handles a record, or mints in a frozen module. */
  lemma StepKeeps(s: State, env: Env, e: Event)
    ensures Keeps(s, Step(s, env, e))
  {
    if e.Submit? && e.call.UnfreezeTxs? {
      UnfreezeAllKeeps(s, env, e.call.txs);
    } else {
      StepIsLawful(s, env, e);
      LawfulKeeps(s, Step(s, env, e));
    }
  }

  // ----- runs -----

  lemma {:induction false} RunExtendsLog(s: State, events: seq<(Env, Event)>)
    ensures s.log <= Run(s, events).log
  {
    if events != [] {
      var init, last := events[..|events| - 1], events[|events| - 1];
      RunExtendsLog(s, init);
      StepKeeps(Run(s, init), last.0, last.1);
    }
  }

  /** A handled record never changes again, along any run from any state. */
  lemma {:induction false} HandledIsFinal(s: State, events: seq<(Env, Event)>, k: Key)
    requires StatusOf(s, k).Handled?
    ensures DetailOf(Run(s, events), k) == DetailOf(s, k)
  {
    if events != [] {
      var init, last := events[..|events| - 1], events[|events| - 1];
      HandledIsFinal(s, init, k);
      StepKeeps(Run(s, init), last.0, last.1);
    }
  }

  // ----- time -----

  lemma HandleNowKeepsBlock(s: State, env: Env, tx: BridgeTx, d: Detail, manual: bool, exemptedDid: Option<Did>)
    ensures HandleNow(s, env, tx, d, manual, exemptedDid).0.block == s.block
  {
    IssueShape(s, env, KeyOf(tx), if manual then d.amount else tx.amount, exemptedDid);
  }

  lemma {:induction false} FreezeAllKeepsBlock(s: State, txs: seq<BridgeTx>)
    ensures FreezeAll(s, txs).block == s.block
  {
    if txs != [] { FreezeAllKeepsBlock(s, txs[..|txs| - 1]); }
  }

  lemma {:induction false} UnfreezeAllKeepsBlock(s: State, env: Env, txs: seq<BridgeTx>)
    ensures UnfreezeAll(s, env, txs).block == s.block
  {
    if txs != [] {
      var init, tx := UnfreezeAll(s, env, txs[..|txs| - 1]), txs[|txs| - 1];
      UnfreezeAllKeepsBlock(s, env, txs[..|txs| - 1]);
      var absent := DetailOf(init, KeyOf(tx)).(status := Absent);
      HandleNowKeepsBlock(Put(init, KeyOf(tx), absent), env, tx, absent, true, None);
    }
  }

  lemma HandleTxKeepsBlock(s: State, env: Env, origin: Origin, tx: BridgeTx)
    ensures HandleTx(s, env, origin, tx).0.block == s.block
  {
    HandleNowKeepsBlock(s, env, tx, DetailOf(s, KeyOf(tx)), StatusOf(s, KeyOf(tx)).Pending?, None);
  }

  lemma ForceKeepsBlock(s: State, env: Env, origin: Origin, tx: BridgeTx)
    ensures ForceHandleTx(s, env, origin, tx).0.block == s.block
  {
    if tx.recipient in env.cdd {
      HandleNowKeepsBlock(s, env, tx, DetailOf(s, KeyOf(tx)), false, Some(env.cdd[tx.recipient]));
    }
  }

  lemma PerformKeepsBlock(s: State, env: Env, origin: Origin, call: Call)
    ensures Perform(s, env, origin, call).0.block == s.block
  {
    match call
    case HandleBridgeTx(tx) => HandleTxKeepsBlock(s, env, origin, tx);
    case ForceHandleBridgeTx(tx) => ForceKeepsBlock(s, env, origin, tx);
    case HandleScheduledBridgeTx(tx) =>
      HandleNowKeepsBlock(s, env, tx, DetailOf(s, KeyOf(tx)), false, None);
    case FreezeTxs(txs) => FreezeAllKeepsBlock(s, txs);
    case UnfreezeTxs(txs) => UnfreezeAllKeepsBlock(s, env, txs);
    case _ =>
  }

  lemma FireKeepsBlock(s: State, env: Env, c: Scheduled)
    ensures Step(s, env, Fire(c)).block == s.block
  {
    var mid := s.(queue := s.queue - multiset{c});
    HandleNowKeepsBlock(mid, env, c.tx, DetailOf(mid, KeyOf(c.tx)), false, None);
  }

  lemma StepAdvancesBlock(s: State, env: Env, e: Event)
    ensures s.block <= Step(s, env, e).block
  {
    match e
    case Advance(_) =>
    case Fire(c) => FireKeepsBlock(s, env, c);
    case Submit(origin, call) => PerformKeepsBlock(s, env, origin, call);
  }

  // ----- supply -----

  function Total(log: seq<Mint>): nat {
    if log == [] then 0 else Total(log[..|log| - 1]) + log[|log| - 1].amount
  }

  function TotalTo(log: seq<Mint>, who: AccountId): nat {
    if log == [] then 0
    else
      var m := log[|log| - 1];
      TotalTo(log[..|log| - 1], who) + if m.key.recipient == who then m.amount else 0
  }

  lemma TotalToBound(log: seq<Mint>, who: AccountId)
    ensures TotalTo(log, who) <= Total(log)
  {
  }

  /** Every balance and the issuance are what they were at `s0` plus what was minted since. */
  ghost predicate Sums(s0: State, s: State, minted: seq<Mint>) {
    && s.issuance == s0.issuance + Total(minted)
    && forall a :: BalanceOf(s, a) == BalanceOf(s0, a) + TotalTo(minted, a)
  }

  /** That holds unless the minted total overflows a `u128`. */
  ghost predicate Conserved(s0: State, s: State) {
    && s0.log <= s.log
    && s.issuance <= MAX_BALANCE
    && var minted := s.log[|s0.log|..];
       s0.issuance + Total(minted) <= MAX_BALANCE ==> Sums(s0, s, minted)
  }

  ghost predicate Funded(s: State) {
    s.issuance <= MAX_BALANCE && forall a :: BalanceOf(s, a) <= s.issuance
  }

  /** One deposit, and its entry in the log. */
  ghost predicate Credits(s: State, s': State, m: Mint) {
    && s'.log == s.log + [m]
    && s'.balances == Deposit(s, m.key.recipient, m.amount).balances
    && s'.issuance == Deposit(s, m.key.recipient, m.amount).issuance
  }

  lemma AppendedTotals(log: seq<Mint>, m: Mint, who: AccountId)
    ensures Total(log + [m]) == Total(log) + m.amount
    ensures TotalTo(log + [m], who) == TotalTo(log, who) + if m.key.recipient == who then m.amount else 0
  {
    assert (log + [m])[..|log|] == log;
  }

  /** A deposit that fits, account by account. */
  lemma DepositAdds(s: State, who: AccountId, amount: Balance, a: AccountId)
    requires BalanceOf(s, who) + amount <= MAX_BALANCE
    ensures BalanceOf(Deposit(s, who, amount), a) == BalanceOf(s, a) + if a == who then amount else 0
  {
  }

  /** While the opening money and the log fit, so does every deposit. */
  lemma DepositFits(s0: State, s: State, log: seq<Mint>, who: AccountId, amount: Balance)
    requires Funded(s0) && Sums(s0, s, log) && s0.issuance + Total(log) + amount <= MAX_BALANCE
    ensures BalanceOf(s, who) + amount <= MAX_BALANCE
  {
    TotalToBound(log, who);
  }

  lemma CreditSums(s0: State, s: State, s': State, log: seq<Mint>, m: Mint)
    requires Funded(s0) && Sums(s0, s, log) && Credits(s, s', m)
    requires s0.issuance + Total(log) + m.amount <= MAX_BALANCE
    ensures Sums(s0, s', log + [m])
  {
    var who := m.key.recipient;
    DepositFits(s0, s, log, who, m.amount);
    AppendedTotals(log, m, who);
    forall a ensures BalanceOf(s', a) == BalanceOf(s0, a) + TotalTo(log + [m], a) {
      AppendedTotals(log, m, a);
      DepositAdds(s, who, m.amount, a);
    }
  }

  lemma CreditConserves(s0: State, s: State, s': State, m: Mint)
    requires Funded(s0) && Conserved(s0, s) && Credits(s, s', m)
    ensures Conserved(s0, s')
  {
    var minted := s.log[|s0.log|..];
    assert s'.log[|s0.log|..] == minted + [m];
    AppendedTotals(minted, m, m.key.recipient);
    if s0.issuance + Total(minted) + m.amount <= MAX_BALANCE {
      CreditSums(s0, s, s', minted, m);
    }
  }

  lemma LawfulConserves(s0: State, s: State, s': State)
    requires Funded(s0) && Conserved(s0, s) && Lawful(s, s')
    ensures Conserved(s0, s')
  {
    if !Quiet(s, s') {
      var k :| Mints(s, s', k);
      CreditConserves(s0, s, s', s'.log[|s.log|]);
    }
  }

  lemma {:induction false} UnfreezeAllConserves(s0: State, s: State, env: Env, txs: seq<BridgeTx>)
    requires Funded(s0) && Conserved(s0, s)
    ensures Conserved(s0, UnfreezeAll(s, env, txs))
  {
    if txs != [] {
      var init := txs[..|txs| - 1];
      UnfreezeAllConserves(s0, s, env, init);
      UnfreezeOneIsLawful(UnfreezeAll(s, env, init), env, txs[|txs| - 1]);
      LawfulConserves(s0, UnfreezeAll(s, env, init), UnfreezeAll(s, env, txs));
    }
  }

  lemma StepConserves(s0: State, s: State, env: Env, e: Event)
    requires Funded(s0) && Conserved(s0, s)
    ensures Conserved(s0, Step(s, env, e))
  {
    if e.Submit? && e.call.UnfreezeTxs? {
      UnfreezeAllConserves(s0, s, env, e.call.txs);
    } else {
      StepIsLawful(s, env, e);
      LawfulConserves(s0, s, Step(s, env, e));
    }
  }

  lemma {:induction false} RunConserves(s0: State, s: State, events: seq<(Env, Event)>)
    requires Funded(s0) && Conserved(s0, s)
    ensures Conserved(s0, Run(s, events))
  {
    if events != [] {
      var init, last := events[..|events| - 1], events[|events| - 1];
      RunConserves(s0, s, init);
      StepConserves(s0, Run(s, init), last.0, last.1);
    }
  }

  // ----- genesis -----

  /** One genesis transaction, whatever went before it: a deposit and a handled record. */
  lemma GenesisStep(g: State, env: Env, tx: BridgeTx)
    requires tx.recipient in env.cdd
    ensures var s' := Issue(g, env, KeyOf(tx), tx.amount, Some(env.cdd[tx.recipient])).0;
            && Credits(g, s', Mint(KeyOf(tx), tx.amount, g.block, env.cdd[tx.recipient], true))
            && s'.details == g.details && s'.frozen == g.frozen && s'.block == g.block && s'.queue == g.queue
  {
  }

  /** Genesis mints and handles exactly the configured transactions, in their order. */
  lemma {:induction false} GenesisMintsAll(s: State, env: Env, txs: seq<BridgeTx>)
    requires Blank(s) && Genesis(s, env, txs).Some?
    ensures var g := Genesis(s, env, txs).value;
            && !g.frozen && Conserved(s, g)
            && |g.log| == |txs|
            && (forall i :: 0 <= i < |txs| ==> g.log[i].key == KeyOf(txs[i]) && g.log[i].amount == txs[i].amount)
            && (forall k :: StatusOf(g, k).Handled? <==> Minted(g, k))
  {
    if txs != [] {
      var init, tx := txs[..|txs| - 1], txs[|txs| - 1];
      var g, g' := Genesis(s, env, init).value, Genesis(s, env, txs).value;
      GenesisMintsAll(s, env, init);
      GenesisStep(g, env, tx);
      CreditConserves(s, g, g', Mint(KeyOf(tx), tx.amount, g.block, env.cdd[tx.recipient], true));
      LogAppends(g, g');
    }
  }

  /** One more entry makes its key minted, and no other. */
  lemma LogAppends(s: State, s': State)
    requires |s'.log| == |s.log| + 1 && s.log <= s'.log
    ensures forall k :: Minted(s', k) <==> Minted(s, k) || k == s'.log[|s.log|].key
  {
    forall k ensures Minted(s', k) <==> Minted(s, k) || k == s'.log[|s.log|].key {
      if Minted(s, k) {
        var i :| 0 <= i < |s.log| && s.log[i].key == k;
        assert s'.log[i].key == k;
      }
      if Minted(s', k) {
        var i :| 0 <= i < |s'.log| && s'.log[i].key == k;
        assert i < |s.log| ==> s.log[i].key == k;
      }
    }
  }

  lemma GenesisIsSafe(s: State, env: Env, txs: seq<BridgeTx>)
    requires Blank(s) && Genesis(s, env, txs).Some?
    ensures Safe(Genesis(s, env, txs).value) <==> DistinctKeys(txs)
  {
    GenesisMintsAll(s, env, txs);
    var g := Genesis(s, env, txs).value;
    if DistinctKeys(txs) {
      forall i, j | 0 <= i < j < |g.log| ensures g.log[i].key != g.log[j].key {
        assert KeyOf(txs[i]) != KeyOf(txs[j]);
      }
    } else {
      var i, j :| 0 <= i < j < |txs| && KeyOf(txs[i]) == KeyOf(txs[j]);
      assert g.log[i].key == g.log[j].key;
    }
  }

  lemma {:induction false} RunKeepsSafe(s: State, events: seq<(Env, Event)>)
    requires Safe(s)
    ensures Safe(Run(s, events))
  {
    if events != [] {
      var init, last := events[..|events| - 1], events[|events| - 1];
      RunKeepsSafe(s, init);
      StepKeeps(Run(s, init), last.0, last.1);
    }
  }

  /** The main safety theorem: whatever is submitted, fired or configured after
      genesis, in any order, no key is ever minted twice and exactly the minted
      keys are handled, if and only if genesis lists no key twice. */
  lemma MintedAtMostOnce(s: State, env: Env, txs: seq<BridgeTx>, events: seq<(Env, Event)>)
    requires Blank(s) && Genesis(s, env, txs).Some?
    ensures Safe(Run(Genesis(s, env, txs).value, events)) <==> DistinctKeys(txs)
  {
    var g := Genesis(s, env, txs).value;
    GenesisIsSafe(s, env, txs);
    if DistinctKeys(txs) {
      RunKeepsSafe(g, events);
    } else {
      GenesisMintsAll(s, env, txs);
      RunExtendsLog(g, events);
      var i, j :| 0 <= i < j < |txs| && KeyOf(txs[i]) == KeyOf(txs[j]);
      assert Run(g, events).log[i] == g.log[i] && Run(g, events).log[j] == g.log[j];
    }
  }

  /** Along any run after genesis, the money in existence is the opening money plus the log if and
      only if that sum fits a `u128`, and then every account holds its opening balance plus its mints.
      Past that point `deposit_creating` drops or saturates. */
  lemma SupplyIsLogged(s: State, env: Env, txs: seq<BridgeTx>, events: seq<(Env, Event)>, who: AccountId)
    requires Blank(s) && Genesis(s, env, txs).Some?
    ensures var s' := Run(Genesis(s, env, txs).value, events);
            && (s'.issuance == s.issuance + Total(s'.log) <==> s.issuance + Total(s'.log) <= MAX_BALANCE)
            && (s.issuance + Total(s'.log) <= MAX_BALANCE ==>
                  BalanceOf(s', who) == BalanceOf(s, who) + TotalTo(s'.log, who))
  {
    var g := Genesis(s, env, txs).value;
    GenesisMintsAll(s, env, txs);
    RunConserves(s, g, events);
    assert Run(g, events).log[0..] == Run(g, events).log;
  }
}
