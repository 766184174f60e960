/** Whatever administrators do, every mint is backed: its amount was submitted for that key by the
    controller or the admin, or dispatched by root, or it is nothing at all from a record that was frozen
    before it was submitted.  Which of the amounts is minted is another matter: a queued call survives the
    freezing, amending and unfreezing of its record. */
module BridgeGrants {
  import opened Wrappers
  import opened BridgeSpec
  import opened BridgeSafety
  import opened BridgeDelivery
  import opened BridgeAcceptance
  import opened BridgeTransitions

  // ----- what backs an amount -----

  /** The amount that an event puts behind `k`, if it is one that may. */
  function GrantedBy(s: State, e: Event, k: Key): set<Balance> {
    match e
    case Submit(origin, HandleBridgeTx(tx)) =>
      if KeyOf(tx) == k && (IsController(s, origin) || IsAdmin(s, origin))
         && (StatusOf(s, k).Absent? || StatusOf(s, k).Frozen?)
      then {tx.amount} else {}
    case Submit(origin, ForceHandleBridgeTx(tx)) => if KeyOf(tx) == k && IsAdmin(s, origin) then {tx.amount} else {}
    case Submit(origin, HandleScheduledBridgeTx(tx)) => if KeyOf(tx) == k && origin.Root? then {tx.amount} else {}
    case _ => {}
  }

  /** All the amounts put behind `k` along a run. */
  function Granted(s: State, events: seq<(Env, Event)>, k: Key): set<Balance> {
    if events == [] then {}
    else
      var init := events[..|events| - 1];
      Granted(s, init, k) + GrantedBy(Run(s, init), events[|events| - 1].1, k)
  }

  predicate FreezesUnknown(s: State, env: Env, e: Event, k: Key) {
    AdminNames(s, env, e, k) && e.call.FreezeTxs? && StatusOf(s, k).Absent?
  }

  /** An admin froze `k` along the run while it was absent. */
  predicate FrozenUnknown(s: State, events: seq<(Env, Event)>, k: Key) {
    events != []
    && var init, last := events[..|events| - 1], events[|events| - 1];
       FrozenUnknown(s, init, k) || FreezesUnknown(Run(s, init), last.0, last.1, k)
  }

  predicate Backs(granted: set<Balance>, unknown: bool, amount: Balance) {
    amount in granted || (unknown && amount == 0)
  }

  predicate RecordBacked(d: Detail, granted: set<Balance>, unknown: bool) {
    match d.status
    case Handled => true
    case Absent => d.amount in granted || d.amount == 0
    case _ => Backs(granted, unknown, d.amount)
  }

  /** The record, the queued calls and the mints of `k` since `start` all have backed amounts. */
  ghost predicate Backed(s: State, start: nat, k: Key, granted: set<Balance>, unknown: bool) {
    && start <= |s.log|
    && (forall c :: c in s.queue && KeyOf(c.tx) == k ==> c.tx.amount in granted)
    && RecordBacked(DetailOf(s, k), granted, unknown)
    && (forall i :: start <= i < |s.log| && s.log[i].key == k ==> Backs(granted, unknown, s.log[i].amount))
  }

  // ----- every step keeps it -----

  lemma BackedGrows(s: State, start: nat, k: Key, granted: set<Balance>, unknown: bool, granted': set<Balance>, unknown': bool)
    requires Backed(s, start, k, granted, unknown) && granted <= granted' && (unknown ==> unknown')
    ensures Backed(s, start, k, granted', unknown')
  {
  }

  lemma BackedWhenLeftAlone(s: State, s': State, start: nat, k: Key, granted: set<Balance>, unknown: bool)
    requires Backed(s, start, k, granted, unknown) && LeavesAlone(s, s', k)
    ensures Backed(s', start, k, granted, unknown)
  {
    assert forall c: Scheduled :: KeyOf(c.tx) == k ==> (c in s'.queue <==> c in s.queue);
  }

  lemma LaterBacks(s: State, env: Env, tx: BridgeTx, timelock: Block, start: nat, granted: set<Balance>, unknown: bool)
    requires Backed(s, start, KeyOf(tx), granted, unknown) && tx.amount in granted
    ensures Backed(HandleLater(s, env, tx, DetailOf(s, KeyOf(tx)), timelock).0, start, KeyOf(tx), granted, unknown)
  {
  }

  /** A mint of a backed amount. */
  lemma MintBacks(s: State, s': State, m: Mint, start: nat, granted: set<Balance>, unknown: bool)
    requires Backed(s, start, m.key, granted, unknown) && Backs(granted, unknown, m.amount)
    requires s'.log == s.log + [m] && s'.queue == s.queue && StatusOf(s', m.key).Handled?
    ensures Backed(s', start, m.key, granted, unknown)
  {
  }

  lemma NowBacks(s: State, env: Env, tx: BridgeTx, manual: bool, exemptedDid: Option<Did>,
                 start: nat, granted: set<Balance>, unknown: bool)
    requires Backed(s, start, KeyOf(tx), granted, unknown)
    requires if manual then Backs(granted, unknown, DetailOf(s, KeyOf(tx)).amount) else tx.amount in granted
    ensures Backed(HandleNow(s, env, tx, DetailOf(s, KeyOf(tx)), manual, exemptedDid).0, start, KeyOf(tx), granted, unknown)
  {
    var d := DetailOf(s, KeyOf(tx));
    var amount := if manual then d.amount else tx.amount;
    var s' := HandleNow(s, env, tx, d, manual, exemptedDid).0;
    IssueShape(s, env, KeyOf(tx), amount, exemptedDid);
    if !d.status.Handled? && !d.status.Frozen? {
      if !s.frozen && Issue(s, env, KeyOf(tx), amount, exemptedDid).1.Ok? {
        MintBacks(s, s', s'.log[|s.log|], start, granted, unknown);
      } else if !manual {
        LaterBacks(s, env, tx, s.timelock, start, granted, unknown);
      }
    }
  }

  lemma HandleTxBacks(s: State, env: Env, origin: Origin, tx: BridgeTx, start: nat, granted: set<Balance>, unknown: bool)
    requires Backed(s, start, KeyOf(tx), granted, unknown)
    requires GrantedBy(s, Submit(origin, HandleBridgeTx(tx)), KeyOf(tx)) <= granted
    ensures Backed(HandleTx(s, env, origin, tx).0, start, KeyOf(tx), granted, unknown)
  {
    var status := StatusOf(s, KeyOf(tx));
    var trusted := IsController(s, origin) || IsAdmin(s, origin);
    if status.Pending? {
      NowBacks(s, env, tx, true, None, start, granted, unknown);
    } else if trusted && status.Absent? {
      assert tx.amount in granted;
      NowBacks(s, env, tx, false, None, start, granted, unknown);
      LaterBacks(s, env, tx, s.timelock, start, granted, unknown);
    }
  }

  lemma {:induction false} FreezeAllBacks(s: State, txs: seq<BridgeTx>, start: nat, k: Key, granted: set<Balance>, unknown: bool)
    requires Backed(s, start, k, granted, unknown) && (StatusOf(s, k).Absent? ==> unknown)
    ensures Backed(FreezeAll(s, txs), start, k, granted, unknown)
    ensures StatusOf(FreezeAll(s, txs), k).Absent? ==> unknown
  {
    if txs != [] {
      FreezeAllBacks(s, txs[..|txs| - 1], start, k, granted, unknown);
    }
  }

  lemma UnfreezeOneBacks(s: State, env: Env, tx: BridgeTx, start: nat, k: Key, granted: set<Balance>, unknown: bool)
    requires Backed(s, start, k, granted, unknown)
    ensures Backed(UnfreezeOne(s, env, tx), start, k, granted, unknown)
  {
    var d := DetailOf(s, KeyOf(tx));
    if d.status.Frozen? {
      var absent := d.(status := Absent);
      var mid := Put(s, KeyOf(tx), absent);
      assert Backed(mid, start, k, granted, unknown);
      if KeyOf(tx) == k {
        NowBacks(mid, env, tx, true, None, start, granted, unknown);
      } else {
        NowLeavesAlone(mid, env, tx, absent, true, None, k);
        BackedWhenLeftAlone(mid, UnfreezeOne(s, env, tx), start, k, granted, unknown);
      }
    }
  }

  lemma {:induction false} UnfreezeAllBacks(s: State, env: Env, txs: seq<BridgeTx>, start: nat, k: Key, granted: set<Balance>, unknown: bool)
    requires Backed(s, start, k, granted, unknown)
    ensures Backed(UnfreezeAll(s, env, txs), start, k, granted, unknown)
  {
    if txs != [] {
      UnfreezeAllBacks(s, env, txs[..|txs| - 1], start, k, granted, unknown);
      UnfreezeOneBacks(UnfreezeAll(s, env, txs[..|txs| - 1]), env, txs[|txs| - 1], start, k, granted, unknown);
    }
  }

  lemma FireBacks(s: State, env: Env, c: Scheduled, start: nat, granted: set<Balance>, unknown: bool)
    requires Backed(s, start, KeyOf(c.tx), granted, unknown)
    ensures Backed(Step(s, env, Fire(c)), start, KeyOf(c.tx), granted, unknown)
  {
    if c in s.queue && c.at <= s.block {
      var mid := s.(queue := s.queue - multiset{c});
      assert Backed(mid, start, KeyOf(c.tx), granted, unknown);
      NowBacks(mid, env, c.tx, false, None, start, granted, unknown);
    }
  }

  /** Calls by which the admin or root act on `k`. */
  lemma ActBacks(s: State, env: Env, origin: Origin, call: Call, start: nat, k: Key, granted: set<Balance>, unknown: bool)
    requires ActsOn(s, env, Submit(origin, call), k) && Backed(s, start, k, granted, unknown)
    requires GrantedBy(s, Submit(origin, call), k) <= granted && (FreezesUnknown(s, env, Submit(origin, call), k) ==> unknown)
    ensures Backed(Dispatch(s, env, origin, call).0, start, k, granted, unknown)
  {
    match call
    case ForceHandleBridgeTx(tx) =>
      assert tx.amount in granted;
      if tx.recipient in env.cdd {
        NowBacks(s, env, tx, false, Some(env.cdd[tx.recipient]), start, granted, unknown);
      }
    case HandleScheduledBridgeTx(tx) =>
      assert tx.amount in granted;
      NowBacks(s, env, tx, false, None, start, granted, unknown);
    case FreezeTxs(txs) => FreezeAllBacks(s, txs, start, k, granted, unknown);
    case UnfreezeTxs(txs) => UnfreezeAllBacks(s, env, txs, start, k, granted, unknown);
    case RemoveTxs(txs) =>
      if AllFrozen(s, txs) {
        RemoveMoves(s, txs, k);
      }
  }

  lemma StepBacks(s: State, env: Env, e: Event, start: nat, k: Key, granted: set<Balance>, unknown: bool)
    requires Backed(s, start, k, granted, unknown)
    requires GrantedBy(s, e, k) <= granted && (FreezesUnknown(s, env, e, k) ==> unknown)
    ensures Backed(Step(s, env, e), start, k, granted, unknown)
  {
    if ActsOn(s, env, e, k) {
      ActBacks(s, env, e.origin, e.call, start, k, granted, unknown);
    } else if Names(e, k) {
      match e {
        case Fire(c) => FireBacks(s, env, c, start, granted, unknown);
        case Submit(origin, call) => HandleTxBacks(s, env, origin, call.tx, start, granted, unknown);
      }
    } else {
      StepLeavesAlone(s, env, e, k);
      BackedWhenLeftAlone(s, Step(s, env, e), start, k, granted, unknown);
    }
  }

  lemma {:induction false} RunBacks(s: State, events: seq<(Env, Event)>, k: Key)
    requires Backed(s, |s.log|, k, {}, false)
    ensures Backed(Run(s, events), |s.log|, k, Granted(s, events, k), FrozenUnknown(s, events, k))
  {
    if events != [] {
      var init, last := events[..|events| - 1], events[|events| - 1];
      RunBacks(s, init, k);
      BackedGrows(Run(s, init), |s.log|, k, Granted(s, init, k), FrozenUnknown(s, init, k),
                  Granted(s, events, k), FrozenUnknown(s, events, k));
      StepBacks(Run(s, init), last.0, last.1, |s.log|, k, Granted(s, events, k), FrozenUnknown(s, events, k));
    }
  }

  // ----- the theorem -----

  lemma GenesisIsBacked(s: State, env: Env, txs: seq<BridgeTx>, k: Key)
    requires Blank(s) && Genesis(s, env, txs).Some?
    ensures var g := Genesis(s, env, txs).value;
            |g.log| == |txs| && Backed(g, |g.log|, k, {}, false)
  {
    GenesisMintsAll(s, env, txs);
    GenesisIsDelivered(s, env, txs);
    var g := Genesis(s, env, txs).value;
    if k in Keys(txs) {
      var i :| 0 <= i < |txs| && KeyOf(txs[i]) == k;
      assert g.log[i].key == k;
      assert Minted(g, k);
    } else {
      GenesisLeavesOthersAbsent(s, env, txs, k);
    }
  }

  /** Over every run from genesis, with administrators doing as they please: a mint after genesis has an
      amount that was submitted for its key by the controller or the admin, or that root dispatched for it;
      or it is 0, and an admin froze the key while it was absent. */
  lemma EveryMintIsBacked(s: State, env: Env, txs: seq<BridgeTx>, events: seq<(Env, Event)>, i: nat)
    requires Blank(s) && Genesis(s, env, txs).Some?
    requires |txs| <= i < |Run(Genesis(s, env, txs).value, events).log|
    ensures var g := Genesis(s, env, txs).value;
            var m := Run(g, events).log[i];
            Backs(Granted(g, events, m.key), FrozenUnknown(g, events, m.key), m.amount)
  {
    var g := Genesis(s, env, txs).value;
    var k := Run(g, events).log[i].key;
    GenesisIsBacked(s, env, txs, k);
    RunBacks(g, events, k);
  }
}
