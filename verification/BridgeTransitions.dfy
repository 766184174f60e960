/** The status of a record moves only along the edges of the bridge's state diagram, and the edges reserved to
    the administrator are taken by nobody else. */
module BridgeTransitions {
  import opened Wrappers
  import opened BridgeSpec
  import opened BridgeSafety
  import opened BridgeDelivery
  import opened BridgeAcceptance

  /** An attempt that is put off. */
  predicate PutOff(a: Status, b: Status) {
    match a
    case Absent => b.Timelocked?
    case Timelocked => b == Pending(1)
    case Pending(x) => b == Pending((x + 1) % 256)
    case _ => false
  }

  /** The edges.  Unfreezing passes through `Absent`, from where the transaction may be handled at once. */
  predicate Edge(a: Status, b: Status) {
    match a
    case Handled => b.Handled?
    case Frozen => b.Frozen? || b.Absent? || b.Handled?
    case _ => b == a || b.Frozen? || b.Handled? || PutOff(a, b)
  }

  /** An admin with an identity freezes, unfreezes or removes `k`. */
  predicate AdminNames(s: State, env: Env, e: Event, k: Key) {
    && e.Submit? && IsAdmin(s, e.origin) && env.hasIdentity
    && match e.call
       case FreezeTxs(txs) => k in Keys(txs)
       case UnfreezeTxs(txs) => k in Keys(txs)
       case RemoveTxs(txs) => k in Keys(txs)
       case _ => false
  }

  /** The edge, and who may take it: into `Frozen` only an admin's `freeze_txs`, out of it only an admin's
      `unfreeze_txs` or `remove_txs`. */
  ghost predicate FollowsDiagram(s: State, env: Env, e: Event, s': State, k: Key) {
    var a, b := StatusOf(s, k), StatusOf(s', k);
    && Edge(a, b)
    && (b.Frozen? && !a.Frozen? ==> AdminNames(s, env, e, k) && e.call.FreezeTxs?)
    && (a.Frozen? && !b.Frozen? ==> AdminNames(s, env, e, k) && !e.call.FreezeTxs?)
  }

  /** An attempt handles the transaction or puts it off; frozen and handled ones it leaves. */
  lemma NowMoves(s: State, env: Env, tx: BridgeTx, manual: bool, exemptedDid: Option<Did>)
    ensures var k := KeyOf(tx);
            var a, b := StatusOf(s, k), StatusOf(HandleNow(s, env, tx, DetailOf(s, k), manual, exemptedDid).0, k);
            a == b || (!a.Handled? && !a.Frozen? && (b.Handled? || PutOff(a, b)))
  {
    var d := DetailOf(s, KeyOf(tx));
    IssueShape(s, env, KeyOf(tx), if manual then d.amount else tx.amount, exemptedDid);
  }

  lemma {:induction false} FreezeAllMoves(s: State, txs: seq<BridgeTx>, k: Key)
    ensures StatusOf(FreezeAll(s, txs), k)
            == if k in Keys(txs) && !StatusOf(s, k).Handled? then Frozen else StatusOf(s, k)
    ensures DetailOf(FreezeAll(s, txs), k).amount == DetailOf(s, k).amount
  {
    if txs != [] {
      FreezeAllMoves(s, txs[..|txs| - 1], k);
      assert Keys(txs) == Keys(txs[..|txs| - 1]) + {KeyOf(txs[|txs| - 1])};
    }
  }

  lemma UnfreezeOneMoves(s: State, env: Env, tx: BridgeTx)
    ensures var k := KeyOf(tx);
            var a, b := StatusOf(s, k), StatusOf(UnfreezeOne(s, env, tx), k);
            if a.Frozen? then b.Absent? || b.Handled? else DetailOf(UnfreezeOne(s, env, tx), k) == DetailOf(s, k)
  {
    var d := DetailOf(s, KeyOf(tx));
    var absent := d.(status := Absent);
    IssueShape(Put(s, KeyOf(tx), absent), env, KeyOf(tx), d.amount, None);
  }

  lemma {:induction false} UnfreezeAllMoves(s: State, env: Env, txs: seq<BridgeTx>, k: Key)
    ensures var a, b := StatusOf(s, k), StatusOf(UnfreezeAll(s, env, txs), k);
            if k in Keys(txs) && a.Frozen? then b.Absent? || b.Handled?
            else DetailOf(UnfreezeAll(s, env, txs), k) == DetailOf(s, k)
  {
    if txs != [] {
      var init, tx := txs[..|txs| - 1], txs[|txs| - 1];
      var mid := UnfreezeAll(s, env, init);
      UnfreezeAllMoves(s, env, init, k);
      assert Keys(txs) == Keys(init) + {KeyOf(tx)};
      if KeyOf(tx) == k {
        UnfreezeOneMoves(mid, env, tx);
      } else {
        var absent := DetailOf(mid, KeyOf(tx)).(status := Absent);
        NowLeavesAlone(Put(mid, KeyOf(tx), absent), env, tx, absent, true, None, k);
      }
    }
  }

  /** Unfreezing handles a frozen transaction if and only if the module is not frozen and the recipient's
      identity may bridge the amount on record. */
  lemma UnfreezeOneHandles(s: State, env: Env, tx: BridgeTx)
    requires StatusOf(s, KeyOf(tx)).Frozen? && s.limit <= MAX_BALANCE
    ensures StatusOf(UnfreezeOne(s, env, tx), KeyOf(tx)).Handled?
            <==> !s.frozen && MayBridge(s, env, tx.recipient, DetailOf(s, KeyOf(tx)).amount)
  {
    var k, d := KeyOf(tx), DetailOf(s, KeyOf(tx));
    var absent := d.(status := Absent);
    var mid := Put(s, k, absent);
    IssuesIffMayBridge(mid, env, k, d.amount);
    assert MayBridge(mid, env, tx.recipient, d.amount) <==> MayBridge(s, env, tx.recipient, d.amount);
    IssueShape(mid, env, k, d.amount, None);
  }

  lemma {:induction false} UnfreezeAllKeepsLimit(s: State, env: Env, txs: seq<BridgeTx>)
    ensures UnfreezeAll(s, env, txs).limit == s.limit
  {
    if txs != [] {
      var mid, tx := UnfreezeAll(s, env, txs[..|txs| - 1]), txs[|txs| - 1];
      UnfreezeAllKeepsLimit(s, env, txs[..|txs| - 1]);
      var absent := DetailOf(mid, KeyOf(tx)).(status := Absent);
      IssueKeepsSettings(Put(mid, KeyOf(tx), absent), env, KeyOf(tx), absent.amount, None);
    }
  }

  /** In a batch, that is decided when the key is first listed, by what the entries before it left of the
      identity's limit. */
  lemma {:induction false} UnfreezeAllHandles(s: State, env: Env, txs: seq<BridgeTx>, i: nat)
    requires i < |txs| && StatusOf(s, KeyOf(txs[i])).Frozen? && s.limit <= MAX_BALANCE
    requires KeyOf(txs[i]) !in Keys(txs[..i])
    ensures var k := KeyOf(txs[i]);
            StatusOf(UnfreezeAll(s, env, txs), k).Handled?
            <==> !s.frozen && MayBridge(UnfreezeAll(s, env, txs[..i]), env, k.recipient, DetailOf(s, k).amount)
  {
    var init, tx, k := txs[..|txs| - 1], txs[|txs| - 1], KeyOf(txs[i]);
    var mid := UnfreezeAll(s, env, init);
    if i == |txs| - 1 {
      UnfreezeAllMoves(s, env, init, k);
      UnfreezeAllKeeps(s, env, init);
      UnfreezeAllKeepsLimit(s, env, init);
      UnfreezeOneHandles(mid, env, tx);
    } else {
      assert init[..i] == txs[..i];
      UnfreezeAllHandles(s, env, init, i);
      UnfreezeAllMoves(s, env, init, k);
      assert k in Keys(init);
      LeavesReleased(mid, env, tx, k);
    }
  }

  /** Unfreezing leaves what is not frozen. */
  lemma LeavesReleased(s: State, env: Env, tx: BridgeTx, k: Key)
    requires !StatusOf(s, k).Frozen?
    ensures DetailOf(UnfreezeOne(s, env, tx), k) == DetailOf(s, k)
  {
    var absent := DetailOf(s, KeyOf(tx)).(status := Absent);
    if KeyOf(tx) != k {
      NowLeavesAlone(Put(s, KeyOf(tx), absent), env, tx, absent, true, None, k);
    }
  }

  lemma HandleTxMoves(s: State, env: Env, origin: Origin, tx: BridgeTx)
    ensures var k := KeyOf(tx);
            var a, b := StatusOf(s, k), StatusOf(HandleTx(s, env, origin, tx).0, k);
            a == b || (!a.Handled? && !a.Frozen? && (b.Handled? || PutOff(a, b)))
  {
    var d := DetailOf(s, KeyOf(tx));
    if d.status.Pending? || s.timelock == 0 {
      NowMoves(s, env, tx, d.status.Pending?, None);
    }
  }

  lemma SubmitFollowsDiagram(s: State, env: Env, origin: Origin, call: Call, k: Key)
    ensures FollowsDiagram(s, env, Submit(origin, call), Step(s, env, Submit(origin, call)), k)
  {
    var e := Submit(origin, call);
    match call
    case HandleBridgeTx(tx) =>
      if KeyOf(tx) == k { HandleTxMoves(s, env, origin, tx); } else { StepLeavesAlone(s, env, e, k); }
    case ForceHandleBridgeTx(tx) =>
      if KeyOf(tx) != k {
        StepLeavesAlone(s, env, e, k);
      } else if tx.recipient in env.cdd {
        NowMoves(s, env, tx, false, Some(env.cdd[tx.recipient]));
      }
    case HandleScheduledBridgeTx(tx) =>
      if KeyOf(tx) == k { NowMoves(s, env, tx, false, None); } else { StepLeavesAlone(s, env, e, k); }
    case FreezeTxs(txs) => FreezeAllMoves(s, txs, k);
    case UnfreezeTxs(txs) => UnfreezeAllMoves(s, env, txs, k);
    case RemoveTxs(txs) =>
      if AllFrozen(s, txs) { RemoveMoves(s, txs, k); }
    case _ => StepLeavesAlone(s, env, e, k);
  }

  lemma RemoveMoves(s: State, txs: seq<BridgeTx>, k: Key)
    requires AllFrozen(s, txs)
    ensures var s' := s.(details := s.details - Keys(txs));
            if k in Keys(txs) then StatusOf(s, k).Frozen? && DetailOf(s', k) == DEFAULT_DETAIL
            else DetailOf(s', k) == DetailOf(s, k)
  {
    if k in Keys(txs) {
      var i :| 0 <= i < |txs| && KeyOf(txs[i]) == k;
    }
  }

  lemma FireFollowsDiagram(s: State, env: Env, c: Scheduled, k: Key)
    ensures FollowsDiagram(s, env, Fire(c), Step(s, env, Fire(c)), k)
  {
    if KeyOf(c.tx) == k {
      NowMoves(s.(queue := s.queue - multiset{c}), env, c.tx, false, None);
    } else {
      FireLeavesAlone(s, env, c, k);
    }
  }

  /** Every step, for every key, follows the diagram. */
  lemma StepFollowsDiagram(s: State, env: Env, e: Event, k: Key)
    ensures FollowsDiagram(s, env, e, Step(s, env, e), k)
  {
    match e
    case Submit(origin, call) => SubmitFollowsDiagram(s, env, origin, call, k);
    case Advance(_) =>
    case Fire(c) => FireFollowsDiagram(s, env, c, k);
  }

  // ----- outsiders -----

  lemma ManualRetryMoves(s: State, env: Env, tx: BridgeTx, k: Key)
    ensures var s' := HandleNow(s, env, tx, DetailOf(s, KeyOf(tx)), true, None).0;
            && (DetailOf(s', k) == DetailOf(s, k) || StatusOf(s', k).Handled?)
            && s'.queue == s.queue && SameSettings(s, s') && s'.frozen == s.frozen
  {
    var d := DetailOf(s, KeyOf(tx));
    IssueShape(s, env, KeyOf(tx), d.amount, None);
    IssueKeepsSettings(s, env, KeyOf(tx), d.amount, None);
  }

  ghost predicate SameSettings(s: State, s': State) {
    && s'.admin == s.admin && s'.controller == s.controller && s'.freezeAdmins == s.freezeAdmins
    && s'.timelock == s.timelock && s'.limit == s.limit && s'.duration == s.duration && s'.exempted == s.exempted
  }

  lemma IssueKeepsSettings(s: State, env: Env, k: Key, amount: Balance, exemptedDid: Option<Did>)
    ensures SameSettings(s, Issue(s, env, k, amount, exemptedDid).0)
  {
    if exemptedDid.None? && k.recipient in env.cdd && s.duration != 0 {
      IssueLimitedKeepsSettings(s, k, amount, env.cdd[k.recipient], s.block / s.duration);
    }
  }

  lemma IssueLimitedKeepsSettings(s: State, k: Key, amount: Balance, did: Did, interval: Block)
    ensures SameSettings(s, IssueLimited(s, k, amount, did, interval).0)
  {
  }

  /** Whoever is neither admin nor controller can do nothing but complete a pending transaction, and, as a
      freeze admin, freeze the module. */
  lemma OutsiderOnlyRetries(s: State, env: Env, account: AccountId, call: Call, k: Key)
    requires s.admin != Some(account) && s.controller != Some(account)
    ensures var s' := Step(s, env, Submit(Signed(account), call));
            && (DetailOf(s', k) == DetailOf(s, k) || (StatusOf(s, k).Pending? && StatusOf(s', k).Handled?))
            && s'.queue == s.queue && SameSettings(s, s')
            && (s.frozen ==> s'.frozen)
            && (s'.frozen && !s.frozen ==> account in s.freezeAdmins)
  {
    if call.HandleBridgeTx? {
      ManualRetryMoves(s, env, call.tx, k);
      if KeyOf(call.tx) != k {
        StepLeavesAlone(s, env, Submit(Signed(account), call), k);
      }
    }
  }

  // ----- who may do what -----

  predicate IsAdminCall(call: Call) {
    !call.HandleBridgeTx? && !call.ForceHandleBridgeTx? && !call.HandleScheduledBridgeTx? && !call.SetFreeze?
  }

  /** A call reserved to the admin is let through for an admin with an identity and nobody else.  Otherwise it
      changes nothing, and the error tells an unsigned origin, an account that is not the admin and an admin
      without an identity apart. */
  lemma AdminCallsAreReserved(s: State, env: Env, origin: Origin, call: Call)
    requires IsAdminCall(call)
    ensures var (s', r) := Dispatch(s, env, origin, call);
            if !origin.Signed? then s' == s && r == Err(BadOrigin)
            else if s.admin != Some(origin.account) then s' == s && r == Err(BadAdmin)
            else if !env.hasIdentity then s' == s && r == Err(MissingIdentity)
            else (s', r) == Perform(s, env, origin, call) && r != Err(BadOrigin) && r != Err(BadAdmin) && r != Err(MissingIdentity)
  {
  }

  /** The module is frozen by the admin or a freeze admin and unfrozen by the admin, each with an identity,
      and only if that changes anything; every other attempt leaves the state as it was. */
  lemma FreezingIsReserved(s: State, env: Env, origin: Origin, freeze: bool)
    ensures var (s', r) := Dispatch(s, env, origin, SetFreeze(freeze));
            var allowed := && origin.Signed? && env.hasIdentity
                           && (s.admin == Some(origin.account) || (freeze && origin.account in s.freezeAdmins));
            && (r.Ok? <==> allowed && s.frozen != freeze)
            && s' == if r.Ok? then s.(frozen := freeze) else s
  {
  }

  // ----- freezing holds -----

  /** No admin unfreezes or removes `k` along the run. */
  predicate NeverReleased(s: State, events: seq<(Env, Event)>, k: Key) {
    events == []
    || var init, last := events[..|events| - 1], events[|events| - 1];
       && NeverReleased(s, init, k)
       && (AdminNames(Run(s, init), last.0, last.1, k) ==> last.1.call.FreezeTxs?)
  }

  /** Runs without an admin's `unfreeze_txs` or `remove_txs` on `k` leave it frozen and unminted. */
  lemma {:induction false} FrozenIsHeld(s: State, events: seq<(Env, Event)>, k: Key)
    requires StatusOf(s, k).Frozen? && Safe(s) && NeverReleased(s, events, k)
    ensures StatusOf(Run(s, events), k).Frozen? && Safe(Run(s, events)) && !Minted(Run(s, events), k)
  {
    if events != [] {
      var init, last := events[..|events| - 1], events[|events| - 1];
      FrozenIsHeld(s, init, k);
      StepFollowsDiagram(Run(s, init), last.0, last.1, k);
      StepKeeps(Run(s, init), last.0, last.1);
    }
  }

  /** Unfreezing mints the amount on record, whatever amount the admin's list carries. */
  lemma {:induction false} UnfreezeMintsRecordedAmount(s: State, env: Env, txs: seq<BridgeTx>, i: nat)
    requires |s.log| <= i < |UnfreezeAll(s, env, txs).log|
    ensures s.log <= UnfreezeAll(s, env, txs).log
    ensures var m := UnfreezeAll(s, env, txs).log[i];
            StatusOf(s, m.key).Frozen? && m.amount == DetailOf(s, m.key).amount && m.key in Keys(txs)
  {
    var init, tx := txs[..|txs| - 1], txs[|txs| - 1];
    var mid := UnfreezeAll(s, env, init);
    UnfreezeAllKeeps(s, env, init);
    UnfreezeAllKeeps(s, env, txs);
    assert Keys(txs) == Keys(init) + {KeyOf(tx)};
    var d := DetailOf(mid, KeyOf(tx));
    IssueShape(Put(mid, KeyOf(tx), d.(status := Absent)), env, KeyOf(tx), d.amount, None);
    if i < |mid.log| {
      UnfreezeMintsRecordedAmount(s, env, init, i);
    } else {
      UnfreezeAllMoves(s, env, init, KeyOf(tx));
    }
  }
}
