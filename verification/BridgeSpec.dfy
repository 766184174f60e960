/** The Ethereum-to-Polymesh bridge pallet as a state machine.

    Every dispatchable is a total function from the state before to the state
    after and the dispatch outcome.  What the pallet asks of code outside it is
    passed in as an `Env`: the CDD lookup, whether the caller's key has an
    identity, and whether the scheduler takes a call.  All three may differ
    from step to step.

    `State.log` is a history variable: no branch reads it.  It records every
    successful `issue` call, which the pallet itself does not. */
module BridgeSpec {
  import opened Wrappers

  type AccountId = nat
  type Did = nat
  type Block = nat
  type Balance = nat

  /** The largest `u32` block number, at which block arithmetic saturates. */
  const MAX_BLOCK: Block := 0xFFFF_FFFF
  /** The largest `u128` balance. */
  const MAX_BALANCE: Balance := 0xFFFF_FFFF_FFFF_FFFF_FFFF_FFFF_FFFF_FFFF

  datatype Key = Key(recipient: AccountId, nonce: nat)

  datatype Status = Absent | Pending(tries: nat) | Frozen | Timelocked | Handled

  datatype BridgeTx = BridgeTx(nonce: nat, recipient: AccountId, amount: Balance, txHash: nat)

  datatype Detail = Detail(amount: Balance, status: Status, executionBlock: Block, txHash: nat)

  /** A call of `handle_scheduled_bridge_tx` waiting in the scheduler. */
  datatype Scheduled = Scheduled(at: Block, tx: BridgeTx)

  /** One successful `issue`: `exempt` says that the bridge limit was not applied. */
  datatype Mint = Mint(key: Key, amount: Balance, block: Block, did: Did, exempt: bool)

  datatype Error =
    | BadOrigin | BadAdmin | BadCaller | MissingIdentity
    | NoValidCdd | DivisionByZero | Overflow | BridgeLimitReached
    | ProposalAlreadyHandled | FrozenTx | TimelockedTx
    | BridgeFrozen | BridgeNotFrozen
    | ScheduleRefused

  datatype Origin = Root | Signed(account: AccountId) | Unsigned

  datatype Env = Env(cdd: map<AccountId, Did>, hasIdentity: bool, accepts: bool)

  datatype State = State(
    details: map<Key, Detail>,
    admin: Option<AccountId>,
    controller: Option<AccountId>,
    freezeAdmins: set<AccountId>,
    frozen: bool,
    timelock: Block,
    limit: Balance,
    duration: Block,
    bridged: map<Did, (Balance, Block)>,
    exempted: map<Did, bool>,
    block: Block,
    queue: multiset<Scheduled>,
    balances: map<AccountId, Balance>,
    issuance: Balance,
    log: seq<Mint>)

  type Transition = (State, Outcome<Error>)

  // ----- reading the storage maps; a missing entry reads as its default -----

  function KeyOf(tx: BridgeTx): Key {
    Key(tx.recipient, tx.nonce)
  }

  const DEFAULT_DETAIL := Detail(0, Absent, 0, 0)

  function DetailOf(s: State, k: Key): Detail {
    if k in s.details then s.details[k] else DEFAULT_DETAIL
  }

  function StatusOf(s: State, k: Key): Status {
    DetailOf(s, k).status
  }

  function BridgedOf(s: State, did: Did): (Balance, Block) {
    if did in s.bridged then s.bridged[did] else (0, 0)
  }

  predicate IsExempted(s: State, did: Did) {
    did in s.exempted && s.exempted[did]
  }

  function BalanceOf(s: State, who: AccountId): Balance {
    if who in s.balances then s.balances[who] else 0
  }

  function Put(s: State, k: Key, d: Detail): State {
    s.(details := s.details[k := d])
  }

  function AddBlocks(a: Block, b: Block): Block {
    SaturatingAdd(a, b, MAX_BLOCK)
  }

  function Pow2(n: nat): nat {
    if n == 0 then 1 else 2 * Pow2(n - 1)
  }

  // ----- minting -----

  /** `deposit_creating` of the balances pallet: nothing happens when the
      recipient's balance would overflow, and the total issuance saturates. */
  function Deposit(s: State, who: AccountId, amount: Balance): State {
    if BalanceOf(s, who) + amount > MAX_BALANCE then s
    else s.(balances := s.balances[who := BalanceOf(s, who) + amount],
            issuance := if s.issuance + amount <= MAX_BALANCE then s.issuance + amount else MAX_BALANCE)
  }

  function Credit(s: State, k: Key, amount: Balance, did: Did, exempt: bool): State {
    Deposit(s, k.recipient, amount).(log := s.log + [Mint(k, amount, s.block, did, exempt)])
  }

  /** Counts the amount towards the identity's total of the current interval, within the bridge limit. */
  function CountBridged(s: State, amount: Balance, did: Did, interval: Block): Transition {
    var (bridged, last) := BridgedOf(s, did);
    if last == interval && amount + bridged > MAX_BALANCE then (s, Err(Overflow))
    else
      var total := if last == interval then amount + bridged else amount;
      if total > s.limit then (s, Err(BridgeLimitReached))
      else (s.(bridged := s.bridged[did := (total, interval)]), Ok)
  }

  /** The branch of `issue` that applies the bridge limit to the identity's current interval. */
  function IssueLimited(s: State, k: Key, amount: Balance, did: Did, interval: Block): Transition {
    var (counted, r) := CountBridged(s, amount, did, interval);
    if r.Err? then (s, r) else (Credit(counted, k, amount, did, false), Ok)
  }

  /** `issue`: finds the identity, applies the bridge limit unless exempted, and deposits. */
  function Issue(s: State, env: Env, k: Key, amount: Balance, exemptedDid: Option<Did>): Transition {
    if exemptedDid.None? && k.recipient !in env.cdd then (s, Err(NoValidCdd))
    else
      var did := if exemptedDid.Some? then exemptedDid.value else env.cdd[k.recipient];
      if exemptedDid.Some? || IsExempted(s, did) then (Credit(s, k, amount, did, true), Ok)
      else if s.duration == 0 then (s, Err(DivisionByZero))
      else IssueLimited(s, k, amount, did, s.block / s.duration)
  }

  // ----- handling one transaction -----

  /** The next attempt's status.  The `u8` attempt counter wraps at 256. */
  function NextStatus(status: Status): Status {
    match status
    case Absent => Timelocked
    case Timelocked => Pending(1)
    case Pending(x) => Pending((x + 1) % 256)
    case _ => status
  }

  /** Attempts counted for the backoff, capped at 24. */
  function Attempts(next: Status): nat {
    if next.Pending? then Min(next.tries, 24) else 0
  }

  /** The slot of the next attempt: the timelock and then 2^attempts blocks from now. */
  function UnlockBlock(now: Block, timelock: Block, next: Status): Block {
    AddBlocks(AddBlocks(now, timelock), Pow2(Attempts(next)))
  }

  function LaterDetail(s: State, tx: BridgeTx, d: Detail, timelock: Block): Detail {
    var next := NextStatus(d.status);
    Detail(if d.status.Absent? then tx.amount else d.amount, next, UnlockBlock(s.block, timelock, next), tx.txHash)
  }

  /** `handle_bridge_tx_later`.  The scheduler refuses a slot that is not in the future. */
  function HandleLater(s: State, env: Env, tx: BridgeTx, d: Detail, timelock: Block): Transition {
    if d.status.Frozen? then (s, Err(FrozenTx))
    else if d.status.Handled? then (s, Err(ProposalAlreadyHandled))
    else
      var d' := LaterDetail(s, tx, d, timelock);
      if !env.accepts || d'.executionBlock <= s.block then (s, Err(ScheduleRefused))
      else (Put(s, KeyOf(tx), d').(queue := s.queue + multiset{Scheduled(d'.executionBlock, tx)}), Ok)
  }

  /** `handle_bridge_tx_now`.  A trusted attempt that cannot mint is put off instead of failing. */
  function HandleNow(s: State, env: Env, tx: BridgeTx, d: Detail, manual: bool, exemptedDid: Option<Did>): Transition {
    if d.status.Handled? then (s, Err(ProposalAlreadyHandled))
    else if d.status.Frozen? then (s, Err(FrozenTx))
    else if s.frozen then
      if manual then (s, Err(BridgeFrozen)) else HandleLater(s, env, tx, d, s.timelock)
    else
      var (s', issued) := Issue(s, env, KeyOf(tx), if manual then d.amount else tx.amount, exemptedDid);
      if issued.Ok? then (Put(s', KeyOf(tx), d.(status := Handled, executionBlock := s.block)), Ok)
      else if manual then (s, issued)
      else (HandleLater(s, env, tx, d, s.timelock).0, Ok)
  }

  // ----- origins -----

  predicate IsAdmin(s: State, origin: Origin) {
    origin.Signed? && s.admin == Some(origin.account)
  }

  predicate IsController(s: State, origin: Origin) {
    origin.Signed? && s.controller == Some(origin.account)
  }

  function EnsureAdmin(s: State, origin: Origin): Outcome<Error> {
    if !origin.Signed? then Err(BadOrigin)
    else if !IsAdmin(s, origin) then Err(BadAdmin)
    else Ok
  }

  function EnsureAdminDid(s: State, env: Env, origin: Origin): Outcome<Error> {
    var admin := EnsureAdmin(s, origin);
    if admin.Ok? && !env.hasIdentity then Err(MissingIdentity) else admin
  }

  function EnsureFreezeAdminDid(s: State, env: Env, origin: Origin): Outcome<Error> {
    if origin.Signed? && origin.account in s.freezeAdmins then
      if env.hasIdentity then Ok else Err(MissingIdentity)
    else EnsureAdminDid(s, env, origin)
  }

  // ----- the dispatchables -----

  function HandleTx(s: State, env: Env, origin: Origin, tx: BridgeTx): Transition {
    if !origin.Signed? then (s, Err(BadOrigin))
    else
      var d := DetailOf(s, KeyOf(tx));
      var trusted := IsController(s, origin) || IsAdmin(s, origin);
      match d.status
      case Absent =>
        if !trusted then (s, Err(BadCaller))
        else if s.timelock == 0 then HandleNow(s, env, tx, d, false, None)
        else HandleLater(s, env, tx, d, s.timelock)
      case Pending(_) => HandleNow(s, env, tx, d, true, None)
      case Frozen => if !trusted then (s, Err(BadCaller)) else (Put(s, KeyOf(tx), d.(amount := tx.amount)), Ok)
      case Timelocked => (s, Err(TimelockedTx))
      case Handled => (s, Err(ProposalAlreadyHandled))
  }

  function ForceHandleTx(s: State, env: Env, origin: Origin, tx: BridgeTx): Transition {
    var admin := EnsureAdmin(s, origin);
    if admin.Err? then (s, admin)
    else if tx.recipient !in env.cdd then (s, Err(NoValidCdd))
    else HandleNow(s, env, tx, DetailOf(s, KeyOf(tx)), false, Some(env.cdd[tx.recipient]))
  }

  function HandleScheduledTx(s: State, env: Env, origin: Origin, tx: BridgeTx): Transition {
    if !origin.Root? then (s, Err(BadOrigin))
    else HandleNow(s, env, tx, DetailOf(s, KeyOf(tx)), false, None)
  }

  function FreezeOne(s: State, tx: BridgeTx): State {
    var d := DetailOf(s, KeyOf(tx));
    if d.status.Handled? then s else Put(s, KeyOf(tx), d.(status := Frozen))
  }

  function FreezeAll(s: State, txs: seq<BridgeTx>): State {
    if txs == [] then s else FreezeOne(FreezeAll(s, txs[..|txs| - 1]), txs[|txs| - 1])
  }

  function UnfreezeOne(s: State, env: Env, tx: BridgeTx): State {
    var d := DetailOf(s, KeyOf(tx));
    if !d.status.Frozen? then s
    else
      var absent := d.(status := Absent);
      HandleNow(Put(s, KeyOf(tx), absent), env, tx, absent, true, None).0
  }

  function UnfreezeAll(s: State, env: Env, txs: seq<BridgeTx>): State {
    if txs == [] then s else UnfreezeOne(UnfreezeAll(s, env, txs[..|txs| - 1]), env, txs[|txs| - 1])
  }

  predicate AllFrozen(s: State, txs: seq<BridgeTx>) {
    forall i :: 0 <= i < |txs| ==> StatusOf(s, KeyOf(txs[i])).Frozen?
  }

  function Keys(txs: seq<BridgeTx>): set<Key> {
    set tx | tx in txs :: KeyOf(tx)
  }

  function Exempt(m: map<Did, bool>, changes: seq<(Did, bool)>): map<Did, bool> {
    if changes == [] then m
    else Exempt(m, changes[..|changes| - 1])[changes[|changes| - 1].0 := changes[|changes| - 1].1]
  }

  datatype Call =
    | HandleBridgeTx(tx: BridgeTx)
    | ForceHandleBridgeTx(tx: BridgeTx)
    | HandleScheduledBridgeTx(tx: BridgeTx)
    | FreezeTxs(txs: seq<BridgeTx>)
    | UnfreezeTxs(txs: seq<BridgeTx>)
    | RemoveTxs(txs: seq<BridgeTx>)
    | SetFreeze(freeze: bool)
    | ChangeController(controller: AccountId)
    | ChangeAdmin(admin: AccountId)
    | ChangeTimelock(timelock: Block)
    | ChangeBridgeLimit(amount: Balance, duration: Block)
    | ChangeBridgeExempted(changes: seq<(Did, bool)>)
    | AddFreezeAdmin(account: AccountId)
    | RemoveFreezeAdmin(account: AccountId)

  /** The origin check made before anything else; the three handling calls make their own. */
  function Authorize(s: State, env: Env, origin: Origin, call: Call): Outcome<Error> {
    match call
    case HandleBridgeTx(_) => Ok
    case ForceHandleBridgeTx(_) => Ok
    case HandleScheduledBridgeTx(_) => Ok
    case SetFreeze(true) => EnsureFreezeAdminDid(s, env, origin)
    case _ => EnsureAdminDid(s, env, origin)
  }

  function Perform(s: State, env: Env, origin: Origin, call: Call): Transition {
    match call
    case HandleBridgeTx(tx) => HandleTx(s, env, origin, tx)
    case ForceHandleBridgeTx(tx) => ForceHandleTx(s, env, origin, tx)
    case HandleScheduledBridgeTx(tx) => HandleScheduledTx(s, env, origin, tx)
    case FreezeTxs(txs) => (FreezeAll(s, txs), Ok)
    case UnfreezeTxs(txs) => (UnfreezeAll(s, env, txs), Ok)
    case RemoveTxs(txs) =>
      if AllFrozen(s, txs) then (s.(details := s.details - Keys(txs)), Ok) else (s, Err(BridgeNotFrozen))
    case SetFreeze(freeze) =>
      if s.frozen == freeze then (s, Err(if freeze then BridgeFrozen else BridgeNotFrozen))
      else (s.(frozen := freeze), Ok)
    case ChangeController(a) => (s.(controller := Some(a)), Ok)
    case ChangeAdmin(a) => (s.(admin := Some(a)), Ok)
    case ChangeTimelock(t) => (s.(timelock := t), Ok)
    case ChangeBridgeLimit(amount, duration) =>
      if duration == 0 then (s, Err(DivisionByZero)) else (s.(limit := amount, duration := duration), Ok)
    case ChangeBridgeExempted(changes) => (s.(exempted := Exempt(s.exempted, changes)), Ok)
    case AddFreezeAdmin(a) => (s.(freezeAdmins := s.freezeAdmins + {a}), Ok)
    case RemoveFreezeAdmin(a) => (s.(freezeAdmins := s.freezeAdmins - {a}), Ok)
  }

  function Dispatch(s: State, env: Env, origin: Origin, call: Call): Transition {
    var authorized := Authorize(s, env, origin, call);
    if authorized.Err? then (s, authorized) else Perform(s, env, origin, call)
  }

  // ----- runs -----

  /** What can happen next: somebody dispatches a call, the scheduler fires a
      waiting call at or after its slot, or the chain reaches a later block. */
  datatype Event =
    | Submit(origin: Origin, call: Call)
    | Fire(due: Scheduled)
    | Advance(to: Block)

  function Step(s: State, env: Env, e: Event): State {
    match e
    case Submit(origin, call) => Dispatch(s, env, origin, call).0
    case Fire(c) =>
      if c in s.queue && c.at <= s.block then
        HandleScheduledTx(s.(queue := s.queue - multiset{c}), env, Root, c.tx).0
      else s
    case Advance(to) => if s.block <= to <= MAX_BLOCK then s.(block := to) else s
  }

  function Run(s: State, events: seq<(Env, Event)>): State {
    if events == [] then s
    else
      var last := events[|events| - 1];
      Step(Run(s, events[..|events| - 1]), last.0, last.1)
  }

  // ----- genesis -----

  /** A chain before the bridge's genesis transactions: only configuration and balances. */
  predicate Blank(s: State) {
    && s.details == map[] && s.bridged == map[] && s.queue == multiset{} && s.log == []
    && s.block == 0 && !s.frozen
    && s.issuance <= MAX_BALANCE
    && (forall a :: a in s.balances ==> s.balances[a] <= s.issuance)
  }

  /** `bridge_tx_details` of the genesis module: mints each configured transaction as exempt.
      `None` is the panic on a recipient without a CDD. */
  function Genesis(s: State, env: Env, txs: seq<BridgeTx>): Option<State> {
    if txs == [] then Some(s)
    else
      var tx := txs[|txs| - 1];
      var rest := Genesis(s, env, txs[..|txs| - 1]);
      if rest.None? || tx.recipient !in env.cdd then None
      else
        Some(Put(Issue(rest.value, env, KeyOf(tx), tx.amount, Some(env.cdd[tx.recipient])).0,
                 KeyOf(tx), Detail(tx.amount, Handled, 0, tx.txHash)))
  }

  predicate DistinctKeys(txs: seq<BridgeTx>) {
    forall i, j :: 0 <= i < j < |txs| ==> KeyOf(txs[i]) != KeyOf(txs[j])
  }
}
