/** What the administrator's settings do to the calls that come after, and what genesis records. */
module BridgeSettings {
  import opened Wrappers
  import opened BridgeSpec
  import opened BridgeSafety
  import opened BridgeDelivery
  import opened BridgeAcceptance
  import opened BridgeTransitions
  import opened BridgeOutcomes

  ghost predicate AdminActs(s: State, env: Env, origin: Origin) {
    IsAdmin(s, origin) && env.hasIdentity
  }

  /** After `change_controller` exactly the new account is the controller. */
  lemma ControllerChanges(s: State, env: Env, origin: Origin, a: AccountId)
    requires AdminActs(s, env, origin)
    ensures var (s', r) := Dispatch(s, env, origin, ChangeController(a));
            && r == Ok && (forall o :: IsController(s', o) <==> o == Signed(a))
            && (forall o :: IsAdmin(s', o) <==> IsAdmin(s, o)) && s'.(controller := s.controller) == s
  {
  }

  /** After `change_admin` exactly the new account is the admin; the old one has lost every reserved call. */
  lemma AdminChanges(s: State, env: Env, origin: Origin, a: AccountId, env': Env, call: Call)
    requires AdminActs(s, env, origin) && IsAdminCall(call) && origin != Signed(a)
    ensures var (s', r) := Dispatch(s, env, origin, ChangeAdmin(a));
            && r == Ok && (forall o :: IsAdmin(s', o) <==> o == Signed(a)) && s'.(admin := s.admin) == s
            && Dispatch(s', env', origin, call) == (s', Err(BadAdmin))
  {
  }

  /** After `change_timelock` the next new transaction is due that many blocks and one later. */
  lemma TimelockChanges(s: State, env: Env, origin: Origin, timelock: Block, k: Key)
    requires AdminActs(s, env, origin) && StatusOf(s, k).Absent?
    ensures var (s', r) := Dispatch(s, env, origin, ChangeTimelock(timelock));
            r == Ok && Slot(s', k) == Min(s.block + timelock + 1, MAX_BLOCK) && s'.(timelock := s.timelock) == s
  {
  }

  /** `change_bridge_limit` refuses intervals of no blocks.  After it an identity that is not exempted and bridged
      nothing in the current one of the new intervals may bridge exactly up to the new limit. */
  lemma LimitChanges(s: State, env: Env, origin: Origin, limit: Balance, duration: Block,
                     env': Env, recipient: AccountId, amount: Balance)
    requires AdminActs(s, env, origin)
    ensures var (s', r) := Dispatch(s, env, origin, ChangeBridgeLimit(limit, duration));
            if duration == 0 then Rejected(s, s', r, DivisionByZero)
            else
              && r == Ok && s'.(limit := s.limit, duration := s.duration) == s
              && (recipient in env'.cdd && !IsExempted(s, env'.cdd[recipient])
                  && BridgedOf(s, env'.cdd[recipient]).1 != s.block / duration ==>
                    (MayBridge(s', env', recipient, amount) <==> amount <= limit))
  {
  }

  predicate NotListedFrom(changes: seq<(Did, bool)>, did: Did, i: nat) {
    forall j :: i <= j < |changes| ==> changes[j].0 != did
  }

  /** Identities not listed from the `i`-th entry on are exempted as the entries before it say. */
  lemma {:induction false} LaterEntriesDecide(m: map<Did, bool>, changes: seq<(Did, bool)>, did: Did, i: nat)
    requires i <= |changes| && NotListedFrom(changes, did, i)
    ensures did in Exempt(m, changes) <==> did in Exempt(m, changes[..i])
    ensures did in Exempt(m, changes) ==> Exempt(m, changes)[did] == Exempt(m, changes[..i])[did]
  {
    if i == |changes| {
      assert changes[..i] == changes;
    } else {
      var init := changes[..|changes| - 1];
      assert init[..i] == changes[..i];
      LaterEntriesDecide(m, init, did, i);
    }
  }

  /** The last entry for an identity decides whether it is exempted; identities not listed stay as they were. */
  lemma ExemptionsChange(s: State, env: Env, origin: Origin, changes: seq<(Did, bool)>, did: Did, i: nat)
    requires AdminActs(s, env, origin)
    ensures var (s', r) := Dispatch(s, env, origin, ChangeBridgeExempted(changes));
            && r == Ok && s'.(exempted := s.exempted) == s
            && (NotListedFrom(changes, did, 0) ==> (IsExempted(s', did) <==> IsExempted(s, did)))
            && (i < |changes| && changes[i].0 == did && NotListedFrom(changes, did, i + 1) ==> (IsExempted(s', did) <==> changes[i].1))
  {
    if NotListedFrom(changes, did, 0) {
      LaterEntriesDecide(s.exempted, changes, did, 0);
    } else if i < |changes| && changes[i].0 == did && NotListedFrom(changes, did, i + 1) {
      LaterEntriesDecide(s.exempted, changes, did, i + 1);
      assert changes[..i + 1][..i] == changes[..i];
    }
  }

  /** `account` may freeze the module. */
  ghost predicate MayFreeze(s: State, env: Env, account: AccountId) {
    Dispatch(s.(frozen := false), env, Signed(account), SetFreeze(true)).1.Ok?
  }

  lemma MayFreezeIff(s: State, env: Env, account: AccountId)
    ensures MayFreeze(s, env, account) <==> env.hasIdentity && (s.admin == Some(account) || account in s.freezeAdmins)
  {
    FreezingIsReserved(s.(frozen := false), env, Signed(account), true);
  }

  /** Adding a freeze admin lets that account freeze the module and changes nothing for any other. */
  lemma FreezeAdminIsAdded(s: State, env: Env, origin: Origin, a: AccountId, env': Env, account: AccountId)
    requires AdminActs(s, env, origin)
    ensures var (s', r) := Dispatch(s, env, origin, AddFreezeAdmin(a));
            && r == Ok && s'.(freezeAdmins := s.freezeAdmins) == s
            && (MayFreeze(s', env', account) <==> env'.hasIdentity && (account == a || MayFreeze(s, env', account)))
  {
    MayFreezeIff(s, env', account);
    MayFreezeIff(Dispatch(s, env, origin, AddFreezeAdmin(a)).0, env', account);
  }

  /** Removing a freeze admin takes that away from it, unless it is the admin, and from nobody else. */
  lemma FreezeAdminIsRemoved(s: State, env: Env, origin: Origin, a: AccountId, env': Env, account: AccountId)
    requires AdminActs(s, env, origin)
    ensures var (s', r) := Dispatch(s, env, origin, RemoveFreezeAdmin(a));
            && r == Ok && s'.(freezeAdmins := s.freezeAdmins) == s
            && (MayFreeze(s', env', account)
                <==> MayFreeze(s, env', account) && (account != a || s.admin == Some(account)))
  {
    MayFreezeIff(s, env', account);
    MayFreezeIff(Dispatch(s, env, origin, RemoveFreezeAdmin(a)).0, env', account);
  }

  /** `freeze_txs` and `unfreeze_txs` always succeed for the admin, and `remove_txs` if and only if every listed
      transaction is frozen; else it removes nothing. */
  lemma BatchOutcome(s: State, env: Env, origin: Origin, txs: seq<BridgeTx>)
    requires AdminActs(s, env, origin)
    ensures Dispatch(s, env, origin, FreezeTxs(txs)) == (FreezeAll(s, txs), Ok)
    ensures Dispatch(s, env, origin, UnfreezeTxs(txs)) == (UnfreezeAll(s, env, txs), Ok)
    ensures var (s', r) := Dispatch(s, env, origin, RemoveTxs(txs));
            if exists tx :: tx in txs && !StatusOf(s, KeyOf(tx)).Frozen? then Rejected(s, s', r, BridgeNotFrozen)
            else
              && r == Ok && s'.(details := s.details) == s
              && forall k :: DetailOf(s', k) == if k in Keys(txs) then DEFAULT_DETAIL else DetailOf(s, k)
  {
    assert AllFrozen(s, txs) <==> forall tx :: tx in txs ==> StatusOf(s, KeyOf(tx)).Frozen?;
  }

  /** Genesis records each configured transaction as handled in block zero, the last one for its key counting. */
  lemma {:induction false} GenesisRecords(s: State, env: Env, txs: seq<BridgeTx>, i: nat)
    requires Genesis(s, env, txs).Some? && i < |txs|
    requires forall j :: i < j < |txs| ==> KeyOf(txs[j]) != KeyOf(txs[i])
    ensures DetailOf(Genesis(s, env, txs).value, KeyOf(txs[i])) == Detail(txs[i].amount, Handled, 0, txs[i].txHash)
  {
    var init, tx := txs[..|txs| - 1], txs[|txs| - 1];
    if i < |txs| - 1 {
      assert KeyOf(tx) != KeyOf(txs[i]);
      GenesisRecords(s, env, init, i);
      GenesisStep(Genesis(s, env, init).value, env, tx);
    }
  }
}
