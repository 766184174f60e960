/** The bridge pallet's storage and dispatchables, updated in place.  Each method is proved to be the
    transition of `BridgeSpec` on the state that `View` reads off the storage, and to honour what every step
    must: exactly-once minting, supply, finality, delivery, and no minting while frozen. */
module BridgePallet {
  import opened Wrappers
  import opened BridgeSpec
  import opened BridgeSafety
  import opened BridgeDelivery
  import Spec = BridgeSpec

  class Bridge {
    var details: map<Key, Detail>
    var admin: Option<AccountId>
    var controller: Option<AccountId>
    var freezeAdmins: set<AccountId>
    var frozen: bool
    var timelock: Block
    var limit: Balance
    var duration: Block
    var bridged: map<Did, (Balance, Block)>
    var exempted: map<Did, bool>
    var block: Block
    var queue: multiset<Scheduled>
    var balances: map<AccountId, Balance>
    var issuance: Balance
    ghost var log: seq<Mint>

    ghost function View(): State
      reads this
    {
      State(details, admin, controller, freezeAdmins, frozen, timelock, limit, duration,
            bridged, exempted, block, queue, balances, issuance, log)
    }

    /** The pallet at block zero, before the genesis transactions. */
    constructor (admin: Option<AccountId>, controller: Option<AccountId>, timelock: Block, limit: Balance, duration: Block,
                 balances: map<AccountId, Balance>, issuance: Balance)
      requires issuance <= MAX_BALANCE && forall a :: a in balances ==> balances[a] <= issuance
      ensures Blank(View())
      ensures this.admin == admin && this.controller == controller && this.timelock == timelock
      ensures this.limit == limit && this.duration == duration && freezeAdmins == {} && exempted == map[]
      ensures this.balances == balances && this.issuance == issuance
    {
      this.admin, this.controller, this.timelock := admin, controller, timelock;
      this.limit, this.duration := limit, duration;
      this.balances, this.issuance := balances, issuance;
      details, freezeAdmins, frozen := map[], {}, false;
      bridged, exempted, block := map[], map[], 0;
      queue := multiset{};
      log := [];
    }

    method DepositCreating(who: AccountId, amount: Balance)
      modifies this
      ensures View() == Deposit(old(View()), who, amount)
    {
      var free := if who in balances then balances[who] else 0;
      if free + amount <= MAX_BALANCE {
        balances := balances[who := free + amount];
        issuance := if issuance + amount <= MAX_BALANCE then issuance + amount else MAX_BALANCE;
      }
    }

    /** The part of `issue` that holds the identity's interval total against the limit. */
    method CountAgainstLimit(did: Did, amount: Balance) returns (r: Outcome<Error>)
      requires duration > 0
      modifies this`bridged
      ensures (View(), r) == CountBridged(old(View()), amount, did, block / duration)
    {
      var interval := block / duration;
      var (total, last) := if did in bridged then bridged[did] else (0, 0);
      if last == interval {
        if amount + total > MAX_BALANCE {
          return Err(Overflow);
        }
        total := amount + total;
      } else {
        total := amount;
      }
      if total > limit {
        return Err(BridgeLimitReached);
      }
      bridged := bridged[did := (total, interval)];
      return Ok;
    }

    /** `nonce` only names the mint in the log. */
    method Issue(env: Env, recipient: AccountId, ghost nonce: nat, amount: Balance, exemptedDid: Option<Did>)
      returns (r: Outcome<Error>)
      modifies this
      ensures (View(), r) == Spec.Issue(old(View()), env, Key(recipient, nonce), amount, exemptedDid)
    {
      if exemptedDid.None? && recipient !in env.cdd {
        return Err(NoValidCdd);
      }
      var did := if exemptedDid.Some? then exemptedDid.value else env.cdd[recipient];
      var isExempted := exemptedDid.Some? || (did in exempted && exempted[did]);
      if !isExempted {
        if duration == 0 {
          return Err(DivisionByZero);
        }
        r := CountAgainstLimit(did, amount);
        if r.Err? {
          return;
        }
      }
      DepositCreating(recipient, amount);
      log := log + [Mint(Key(recipient, nonce), amount, block, did, isExempted)];
      return Ok;
    }

    method ScheduleCall(env: Env, at: Block, tx: BridgeTx) returns (r: Outcome<Error>)
      modifies this`queue
      ensures r == if env.accepts && at > block then Ok else Err(ScheduleRefused)
      ensures queue == if r.Ok? then old(queue) + multiset{Scheduled(at, tx)} else old(queue)
    {
      if !env.accepts || at <= block {
        return Err(ScheduleRefused);
      }
      queue := queue + multiset{Scheduled(at, tx)};
      return Ok;
    }

    method HandleBridgeTxLater(env: Env, tx: BridgeTx, details: Detail, timelock: Block) returns (r: Outcome<Error>)
      modifies this
      ensures (View(), r) == HandleLater(old(View()), env, tx, details, timelock)
    {
      var d := details;
      var alreadyTried := 0;
      match d.status {
        case Absent =>
          d := d.(status := Timelocked, amount := tx.amount);
        case Pending(x) =>
          alreadyTried := (x + 1) % 256;
          d := d.(status := Pending(alreadyTried));
        case Timelocked =>
          alreadyTried := 1;
          d := d.(status := Pending(1));
        case Frozen => return Err(FrozenTx);
        case Handled => return Err(ProposalAlreadyHandled);
      }
      if alreadyTried > 24 {
        alreadyTried := 24;
      }
      assert d.status == NextStatus(details.status) && alreadyTried == Attempts(d.status);
      var unlock := AddBlocks(AddBlocks(block, timelock), Pow2(alreadyTried));
      d := d.(txHash := tx.txHash, executionBlock := unlock);
      r := ScheduleCall(env, unlock, tx);
      if r.Ok? {
        this.details := this.details[KeyOf(tx) := d];
      }
    }

    method HandleBridgeTxNow(env: Env, tx: BridgeTx, details: Detail, manual: bool, exemptedDid: Option<Did>)
      returns (r: Outcome<Error>)
      modifies this
      ensures (View(), r) == HandleNow(old(View()), env, tx, details, manual, exemptedDid)
    {
      if details.status.Handled? {
        return Err(ProposalAlreadyHandled);
      }
      if details.status.Frozen? {
        return Err(FrozenTx);
      }
      if frozen {
        if manual {
          return Err(BridgeFrozen);
        }
        r := HandleBridgeTxLater(env, tx, details, timelock);
        return;
      }
      var amount := if manual then details.amount else tx.amount;
      r := Issue(env, tx.recipient, tx.nonce, amount, exemptedDid);
      if r.Ok? {
        this.details := this.details[KeyOf(tx) := details.(status := Handled, executionBlock := block)];
      } else if !manual {
        var _ := HandleBridgeTxLater(env, tx, details, timelock);
        r := Ok;
      }
    }

    predicate IsTrusted(account: AccountId)
      reads this
    {
      controller == Some(account) || admin == Some(account)
    }

    function EnsureAdmin(origin: Origin): (r: Outcome<Error>)
      reads this
      ensures r == Spec.EnsureAdmin(View(), origin)
      ensures r.Ok? <==> origin.Signed? && admin == Some(origin.account)
    {
      match origin
      case Signed(account) => if admin == Some(account) then Ok else Err(BadAdmin)
      case _ => Err(BadOrigin)
    }

    function EnsureAdminDid(env: Env, origin: Origin): (r: Outcome<Error>)
      reads this
      ensures r == Spec.EnsureAdminDid(View(), env, origin)
      ensures r.Ok? <==> origin.Signed? && admin == Some(origin.account) && env.hasIdentity
    {
      if EnsureAdmin(origin).Err? then EnsureAdmin(origin)
      else if env.hasIdentity then Ok else Err(MissingIdentity)
    }

    function EnsureFreezeAdminDid(env: Env, origin: Origin): (r: Outcome<Error>)
      reads this
      ensures r == Spec.EnsureFreezeAdminDid(View(), env, origin)
      ensures r.Ok? <==> && origin.Signed? && env.hasIdentity
                         && (admin == Some(origin.account) || origin.account in freezeAdmins)
    {
      match origin
      case Signed(account) =>
        if account !in freezeAdmins && admin != Some(account) then Err(BadAdmin)
        else if env.hasIdentity then Ok else Err(MissingIdentity)
      case _ => Err(BadOrigin)
    }

    function GetTxDetails(tx: BridgeTx): (d: Detail)
      reads this
      ensures d == DetailOf(View(), KeyOf(tx))
    {
      if Key(tx.recipient, tx.nonce) in details then details[Key(tx.recipient, tx.nonce)] else DEFAULT_DETAIL
    }

    method HandleBridgeTx(env: Env, origin: Origin, tx: BridgeTx) returns (r: Outcome<Error>)
      modifies this
      ensures (View(), r) == Dispatch(old(View()), env, origin, Call.HandleBridgeTx(tx))
      ensures Honours(old(View()), env, View())
    {
      StepHonours(View(), env, Submit(origin, Call.HandleBridgeTx(tx)));
      if !origin.Signed? {
        return Err(BadOrigin);
      }
      var d := GetTxDetails(tx);
      match d.status {
        case Absent =>
          if !IsTrusted(origin.account) {
            return Err(BadCaller);
          }
          if timelock == 0 {
            r := HandleBridgeTxNow(env, tx, d, false, None);
          } else {
            r := HandleBridgeTxLater(env, tx, d, timelock);
          }
        case Pending(_) =>
          r := HandleBridgeTxNow(env, tx, d, true, None);
        case Frozen =>
          if !IsTrusted(origin.account) {
            return Err(BadCaller);
          }
          details := details[KeyOf(tx) := d.(amount := tx.amount)];
          return Ok;
        case Timelocked => return Err(TimelockedTx);
        case Handled => return Err(ProposalAlreadyHandled);
      }
    }

    method ForceHandleBridgeTx(env: Env, origin: Origin, tx: BridgeTx) returns (r: Outcome<Error>)
      modifies this
      ensures (View(), r) == Dispatch(old(View()), env, origin, Call.ForceHandleBridgeTx(tx))
      ensures Honours(old(View()), env, View())
    {
      StepHonours(View(), env, Submit(origin, Call.ForceHandleBridgeTx(tx)));
      r := EnsureAdmin(origin);
      if r.Err? {
        return;
      }
      if tx.recipient !in env.cdd {
        return Err(NoValidCdd);
      }
      r := HandleBridgeTxNow(env, tx, GetTxDetails(tx), false, Some(env.cdd[tx.recipient]));
    }

    method HandleScheduledBridgeTx(env: Env, origin: Origin, tx: BridgeTx) returns (r: Outcome<Error>)
      modifies this
      ensures (View(), r) == Dispatch(old(View()), env, origin, Call.HandleScheduledBridgeTx(tx))
      ensures Honours(old(View()), env, View())
    {
      StepHonours(View(), env, Submit(origin, Call.HandleScheduledBridgeTx(tx)));
      if !origin.Root? {
        return Err(BadOrigin);
      }
      r := HandleBridgeTxNow(env, tx, GetTxDetails(tx), false, None);
    }

    method FreezeTxs(env: Env, origin: Origin, txs: seq<BridgeTx>) returns (r: Outcome<Error>)
      modifies this
      ensures (View(), r) == Dispatch(old(View()), env, origin, Call.FreezeTxs(txs))
      ensures Honours(old(View()), env, View())
    {
      StepHonours(View(), env, Submit(origin, Call.FreezeTxs(txs)));
      r := EnsureAdminDid(env, origin);
      if r.Err? {
        return;
      }
      for i := 0 to |txs|
        invariant View() == FreezeAll(old(View()), txs[..i])
      {
        assert txs[..i + 1][..i] == txs[..i];
        var d := GetTxDetails(txs[i]);
        if !d.status.Handled? {
          details := details[KeyOf(txs[i]) := d.(status := Frozen)];
        }
      }
      assert txs[..|txs|] == txs;
    }

    /** The list is processed one transaction at a time: each sees what the ones before it did. */
    method UnfreezeTxs(env: Env, origin: Origin, txs: seq<BridgeTx>) returns (r: Outcome<Error>)
      modifies this
      ensures (View(), r) == Dispatch(old(View()), env, origin, Call.UnfreezeTxs(txs))
      ensures Honours(old(View()), env, View())
    {
      StepHonours(View(), env, Submit(origin, Call.UnfreezeTxs(txs)));
      r := EnsureAdminDid(env, origin);
      if r.Err? {
        return;
      }
      for i := 0 to |txs|
        invariant View() == UnfreezeAll(old(View()), env, txs[..i])
      {
        assert txs[..i + 1][..i] == txs[..i];
        var d := GetTxDetails(txs[i]);
        if d.status.Frozen? {
          d := d.(status := Absent);
          details := details[KeyOf(txs[i]) := d];
          var _ := HandleBridgeTxNow(env, txs[i], d, true, None);
        }
      }
      assert txs[..|txs|] == txs;
    }

    method RemoveTxs(env: Env, origin: Origin, txs: seq<BridgeTx>) returns (r: Outcome<Error>)
      modifies this
      ensures (View(), r) == Dispatch(old(View()), env, origin, Call.RemoveTxs(txs))
      ensures Honours(old(View()), env, View())
    {
      StepHonours(View(), env, Submit(origin, Call.RemoveTxs(txs)));
      r := EnsureAdminDid(env, origin);
      if r.Err? {
        return;
      }
      for i := 0 to |txs|
        invariant View() == old(View()) && AllFrozen(View(), txs[..i])
      {
        if !GetTxDetails(txs[i]).status.Frozen? {
          return Err(BridgeNotFrozen);
        }
      }
      assert AllFrozen(old(View()), txs);
      for i := 0 to |txs|
        invariant View() == old(View()).(details := old(details) - Keys(txs[..i]))
      {
        RemoveStep(old(details), txs, i);
        details := details - {KeyOf(txs[i])};
      }
      assert txs[..|txs|] == txs;
    }

    /** `freeze` and `unfreeze`. */
    method SetFreeze(env: Env, origin: Origin, freeze: bool) returns (r: Outcome<Error>)
      modifies this`frozen
      ensures (View(), r) == Dispatch(old(View()), env, origin, Call.SetFreeze(freeze))
      ensures Honours(old(View()), env, View())
    {
      StepHonours(View(), env, Submit(origin, Call.SetFreeze(freeze)));
      r := if freeze then EnsureFreezeAdminDid(env, origin) else EnsureAdminDid(env, origin);
      if r.Err? {
        return;
      }
      if frozen == freeze {
        return Err(if freeze then BridgeFrozen else BridgeNotFrozen);
      }
      frozen := freeze;
    }

    method ChangeController(env: Env, origin: Origin, controller: AccountId) returns (r: Outcome<Error>)
      modifies this`controller
      ensures (View(), r) == Dispatch(old(View()), env, origin, Call.ChangeController(controller))
      ensures Honours(old(View()), env, View())
    {
      StepHonours(View(), env, Submit(origin, Call.ChangeController(controller)));
      r := EnsureAdminDid(env, origin);
      if r.Ok? {
        this.controller := Some(controller);
      }
    }

    method ChangeAdmin(env: Env, origin: Origin, admin: AccountId) returns (r: Outcome<Error>)
      modifies this`admin
      ensures (View(), r) == Dispatch(old(View()), env, origin, Call.ChangeAdmin(admin))
      ensures Honours(old(View()), env, View())
    {
      StepHonours(View(), env, Submit(origin, Call.ChangeAdmin(admin)));
      r := EnsureAdminDid(env, origin);
      if r.Ok? {
        this.admin := Some(admin);
      }
    }

    method ChangeTimelock(env: Env, origin: Origin, timelock: Block) returns (r: Outcome<Error>)
      modifies this`timelock
      ensures (View(), r) == Dispatch(old(View()), env, origin, Call.ChangeTimelock(timelock))
      ensures Honours(old(View()), env, View())
    {
      StepHonours(View(), env, Submit(origin, Call.ChangeTimelock(timelock)));
      r := EnsureAdminDid(env, origin);
      if r.Ok? {
        this.timelock := timelock;
      }
    }

    method ChangeBridgeLimit(env: Env, origin: Origin, amount: Balance, duration: Block) returns (r: Outcome<Error>)
      modifies this`limit, this`duration
      ensures (View(), r) == Dispatch(old(View()), env, origin, Call.ChangeBridgeLimit(amount, duration))
      ensures Honours(old(View()), env, View())
    {
      StepHonours(View(), env, Submit(origin, Call.ChangeBridgeLimit(amount, duration)));
      r := EnsureAdminDid(env, origin);
      if r.Err? {
        return;
      }
      if duration == 0 {
        return Err(DivisionByZero);
      }
      this.limit, this.duration := amount, duration;
    }

    method ChangeBridgeExempted(env: Env, origin: Origin, changes: seq<(Did, bool)>) returns (r: Outcome<Error>)
      modifies this`exempted
      ensures (View(), r) == Dispatch(old(View()), env, origin, Call.ChangeBridgeExempted(changes))
      ensures Honours(old(View()), env, View())
    {
      StepHonours(View(), env, Submit(origin, Call.ChangeBridgeExempted(changes)));
      r := EnsureAdminDid(env, origin);
      if r.Err? {
        return;
      }
      for i := 0 to |changes|
        invariant exempted == Exempt(old(exempted), changes[..i])
      {
        assert changes[..i + 1][..i] == changes[..i];
        exempted := exempted[changes[i].0 := changes[i].1];
      }
      assert changes[..|changes|] == changes;
    }

    method AddFreezeAdmin(env: Env, origin: Origin, account: AccountId) returns (r: Outcome<Error>)
      modifies this`freezeAdmins
      ensures (View(), r) == Dispatch(old(View()), env, origin, Call.AddFreezeAdmin(account))
      ensures Honours(old(View()), env, View())
    {
      StepHonours(View(), env, Submit(origin, Call.AddFreezeAdmin(account)));
      r := EnsureAdminDid(env, origin);
      if r.Ok? {
        freezeAdmins := freezeAdmins + {account};
      }
    }

    method RemoveFreezeAdmin(env: Env, origin: Origin, account: AccountId) returns (r: Outcome<Error>)
      modifies this`freezeAdmins
      ensures (View(), r) == Dispatch(old(View()), env, origin, Call.RemoveFreezeAdmin(account))
      ensures Honours(old(View()), env, View())
    {
      StepHonours(View(), env, Submit(origin, Call.RemoveFreezeAdmin(account)));
      r := EnsureAdminDid(env, origin);
      if r.Ok? {
        freezeAdmins := freezeAdmins - {account};
      }
    }

    /** The scheduler dispatches a queued call at or after its slot, as root. */
    method Fire(env: Env, due: Scheduled)
      modifies this
      ensures View() == Step(old(View()), env, Event.Fire(due))
      ensures Honours(old(View()), env, View())
    {
      StepHonours(View(), env, Event.Fire(due));
      if due in queue && due.at <= block {
        queue := queue - multiset{due};
        var _ := HandleScheduledBridgeTx(env, Root, due.tx);
      }
    }

    /** The chain reaches a later block. */
    method Advance(ghost env: Env, to: Block)
      modifies this`block
      ensures View() == Step(old(View()), env, Event.Advance(to))
      ensures Honours(old(View()), env, View())
    {
      StepHonours(View(), env, Event.Advance(to));
      if block <= to <= MAX_BLOCK {
        block := to;
      }
    }

    /** Genesis: credits the configured transactions and records them as handled.  `ok` is false where
        the source panics, on a recipient without a CDD. */
    method CompleteGenesisTxs(env: Env, txs: seq<BridgeTx>) returns (ok: bool)
      modifies this
      ensures ok <==> Genesis(old(View()), env, txs).Some?
      ensures ok ==> View() == Genesis(old(View()), env, txs).value
      ensures ok && old(Blank(View())) ==> (Safe(View()) <==> DistinctKeys(txs)) && Conserved(old(View()), View()) && Delivered(View())
    {
      for i := 0 to |txs|
        invariant Genesis(old(View()), env, txs[..i]) == Some(View())
      {
        assert txs[..i + 1][..i] == txs[..i];
        var tx := txs[i];
        if tx.recipient !in env.cdd {
          GenesisFails(old(View()), env, txs, i);
          return false;
        }
        var _ := Issue(env, tx.recipient, tx.nonce, tx.amount, Some(env.cdd[tx.recipient]));
        details := details[KeyOf(tx) := Detail(tx.amount, Handled, 0, tx.txHash)];
      }
      assert txs[..|txs|] == txs;
      GenesisHonours(old(View()), env, txs);
      return true;
    }
  }

  lemma RemoveStep(m: map<Key, Detail>, txs: seq<BridgeTx>, i: nat)
    requires i < |txs|
    ensures m - Keys(txs[..i]) - {KeyOf(txs[i])} == m - Keys(txs[..i + 1])
  {
    assert Keys(txs[..i + 1]) == Keys(txs[..i]) + {KeyOf(txs[i])};
  }

  lemma GenesisHonours(s: State, env: Env, txs: seq<BridgeTx>)
    requires Genesis(s, env, txs).Some?
    ensures var g := Genesis(s, env, txs).value;
            Blank(s) ==> (Safe(g) <==> DistinctKeys(txs)) && Conserved(s, g) && Delivered(g)
  {
    if Blank(s) {
      GenesisIsSafe(s, env, txs);
      GenesisMintsAll(s, env, txs);
      GenesisIsDelivered(s, env, txs);
    }
  }

  lemma {:induction false} GenesisFails(s: State, env: Env, txs: seq<BridgeTx>, i: nat)
    requires i < |txs| && txs[i].recipient !in env.cdd
    ensures Genesis(s, env, txs).None?
  {
    if i < |txs| - 1 {
      GenesisFails(s, env, txs[..|txs| - 1], i);
    }
  }
}
