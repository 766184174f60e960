/** The ERC-20 contract: supply is conserved and allowances are spent exactly. */
module Erc20 {
  import opened Wrappers

  type AccountId = nat

  const MAX_BALANCE: nat := 0xFFFF_FFFF_FFFF_FFFF_FFFF_FFFF_FFFF_FFFF

  datatype Error = InsufficientBalance | InsufficientAllowance | Trapped

  datatype State = State(supply: nat, balances: map<AccountId, nat>, allowances: map<(AccountId, AccountId), nat>)

  function BalanceOf(s: State, who: AccountId): nat {
    if who in s.balances then s.balances[who] else 0
  }

  function Allowance(s: State, owner: AccountId, spender: AccountId): nat {
    if (owner, spender) in s.allowances then s.allowances[(owner, spender)] else 0
  }

  // ----- the messages -----

  function New(caller: AccountId, supply: nat): State {
    State(supply, map[caller := supply], map[])
  }

  /** An emptied entry is removed before the recipient's is read, so that self-transfers see it. */
  function Withdrawn(s: State, from: AccountId, value: nat): State
    requires value <= BalanceOf(s, from)
  {
    if BalanceOf(s, from) - value > 0 then s.(balances := s.balances[from := BalanceOf(s, from) - value])
    else s.(balances := s.balances - {from})
  }

  /** `transfer_from_to`.  A failed message leaves no trace; `Trapped` is an overflow of the recipient's balance. */
  function TransferFromTo(s: State, from: AccountId, to: AccountId, value: nat): (State, Outcome<Error>) {
    if BalanceOf(s, from) < value then (s, Err(InsufficientBalance))
    else
      var s' := Withdrawn(s, from, value);
      var balance := BalanceOf(s', to) + value;
      if balance > MAX_BALANCE then (s, Err(Trapped))
      else (s'.(balances := s'.balances[to := balance]), Ok)
  }

  function Approve(s: State, caller: AccountId, spender: AccountId, value: nat): State {
    s.(allowances := s.allowances[(caller, spender) := value])
  }

  function TransferFrom(s: State, caller: AccountId, from: AccountId, to: AccountId, value: nat): (State, Outcome<Error>) {
    var allowance := Allowance(s, from, caller);
    if allowance < value then (s, Err(InsufficientAllowance))
    else
      var (s', r) := TransferFromTo(s, from, to, value);
      if r.Err? then (s, r)
      else (s'.(allowances := s'.allowances[(from, caller) := allowance - value]), Ok)
  }

  class Token {
    var supply: nat
    var balances: map<AccountId, nat>
    var allowances: map<(AccountId, AccountId), nat>

    ghost function View(): State
      reads this
    {
      State(supply, balances, allowances)
    }

    constructor (caller: AccountId, supply: nat)
      ensures View() == New(caller, supply)
    {
      this.supply, balances, allowances := supply, map[caller := supply], map[];
    }

    method Move(from: AccountId, to: AccountId, value: nat) returns (r: Outcome<Error>)
      modifies this`balances
      ensures (View(), r) == TransferFromTo(old(View()), from, to, value)
    {
      var fromBalance := if from in balances then balances[from] else 0;
      if fromBalance < value {
        return Err(InsufficientBalance);
      }
      var before := balances;
      if fromBalance - value > 0 {
        balances := balances[from := fromBalance - value];
      } else {
        balances := balances - {from};
      }
      var toBalance := if to in balances then balances[to] else 0;
      if toBalance + value > MAX_BALANCE {
        balances := before;
        return Err(Trapped);
      }
      balances := balances[to := toBalance + value];
      return Ok;
    }

    method DoApprove(caller: AccountId, spender: AccountId, value: nat)
      modifies this`allowances
      ensures View() == Approve(old(View()), caller, spender, value)
      ensures forall o, s :: Allowance(View(), o, s) == if o == caller && s == spender then value else Allowance(old(View()), o, s)
    {
      allowances := allowances[(caller, spender) := value];
    }

    method DoTransferFrom(caller: AccountId, from: AccountId, to: AccountId, value: nat) returns (r: Outcome<Error>)
      modifies this
      ensures (View(), r) == TransferFrom(old(View()), caller, from, to, value)
    {
      var allowance := if (from, caller) in allowances then allowances[(from, caller)] else 0;
      if allowance < value {
        return Err(InsufficientAllowance);
      }
      r := Move(from, to, value);
      if r.Ok? {
        allowances := allowances[(from, caller) := allowance - value];
      }
    }
  }

  // ----- the sum of all balances -----

  ghost function Sum(m: map<AccountId, nat>): nat {
    if m == map[] then 0
    else
      var k :| k in m;
      m[k] + Sum(m - {k})
  }

  lemma {:induction false} SumWithout(m: map<AccountId, nat>, k: AccountId)
    requires k in m
    ensures Sum(m) == m[k] + Sum(m - {k})
  {
    var p :| p in m && Sum(m) == m[p] + Sum(m - {p});
    if p != k {
      SumWithout(m - {p}, k);
      SumWithout(m - {k}, p);
      assert m - {p} - {k} == m - {k} - {p};
    }
  }

  lemma SumUpdated(m: map<AccountId, nat>, k: AccountId, v: nat)
    ensures Sum(m[k := v]) == Sum(m - {k}) + v
    ensures Sum(m) == Sum(m - {k}) + if k in m then m[k] else 0
  {
    SumWithout(m[k := v], k);
    assert m[k := v] - {k} == m - {k};
    if k in m {
      SumWithout(m, k);
    } else {
      assert m - {k} == m;
    }
  }

  ghost predicate Conserved(s: State) {
    Sum(s.balances) == s.supply <= MAX_BALANCE
  }

  lemma WithdrawnSum(s: State, from: AccountId, value: nat)
    requires value <= BalanceOf(s, from)
    ensures Sum(Withdrawn(s, from, value).balances) == Sum(s.balances) - value
    ensures forall a :: BalanceOf(Withdrawn(s, from, value), a) == BalanceOf(s, a) - if a == from then value else 0
  {
    SumUpdated(s.balances, from, BalanceOf(s, from) - value);
  }

  /** A transfer moves `value` between the two balances and nothing else, to oneself too; it conserves the sum,
      and with a conserved sum the recipient's balance cannot overflow. */
  lemma TransferMoves(s: State, from: AccountId, to: AccountId, value: nat)
    requires Conserved(s)
    ensures var (s', r) := TransferFromTo(s, from, to, value);
            && Conserved(s') && s'.supply == s.supply && s'.allowances == s.allowances
            && (r.Ok? <==> value <= BalanceOf(s, from))
            && (r.Err? ==> r == Err(InsufficientBalance) && s' == s)
            && (r.Ok? ==> forall a :: BalanceOf(s', a)
                            == BalanceOf(s, a) - (if a == from then value else 0) + (if a == to then value else 0))
  {
    if value <= BalanceOf(s, from) {
      WithdrawnSum(s, from, value);
      var s' := Withdrawn(s, from, value);
      SumUpdated(s'.balances, to, BalanceOf(s', to) + value);
    }
  }

  // ----- runs -----

  datatype Message =
    | Transfer(caller: AccountId, to: AccountId, value: nat)
    | Allow(caller: AccountId, spender: AccountId, value: nat)
    | Spend(caller: AccountId, from: AccountId, to: AccountId, value: nat)

  function Step(s: State, m: Message): (State, Outcome<Error>) {
    match m
    case Transfer(caller, to, value) => TransferFromTo(s, caller, to, value)
    case Allow(caller, spender, value) => (Approve(s, caller, spender, value), Ok)
    case Spend(caller, from, to, value) => TransferFrom(s, caller, from, to, value)
  }

  function Run(s: State, ms: seq<Message>): State {
    if ms == [] then s else Step(Run(s, ms[..|ms| - 1]), ms[|ms| - 1]).0
  }

  /** What `spender` moved from `owner` by allowance along the run. */
  function Spent(s: State, ms: seq<Message>, owner: AccountId, spender: AccountId): nat {
    if ms == [] then 0
    else
      var m := ms[|ms| - 1];
      var before := Run(s, ms[..|ms| - 1]);
      Spent(s, ms[..|ms| - 1], owner, spender)
      + if m.Spend? && m.from == owner && m.caller == spender && Step(before, m).1.Ok? then m.value else 0
  }

  // ----- who holds what -----

  /** The contract opens with the whole supply in the caller's hands and no allowances. */
  lemma OpeningBalances(caller: AccountId, supply: nat, a: AccountId, b: AccountId)
    ensures BalanceOf(New(caller, supply), a) == (if a == caller then supply else 0) && Allowance(New(caller, supply), a, b) == 0
    ensures New(caller, supply).supply == supply
  {
  }

  /** Spending succeeds if and only if the allowance and the balance cover it, the allowance being looked at first.
      It moves the value from the owner to the recipient and takes it off the one allowance. */
  lemma SpendMoves(s: State, caller: AccountId, from: AccountId, to: AccountId, value: nat)
    requires Conserved(s)
    ensures var (s', r) := TransferFrom(s, caller, from, to, value);
            if value > Allowance(s, from, caller) then s' == s && r == Err(InsufficientAllowance)
            else if value > BalanceOf(s, from) then s' == s && r == Err(InsufficientBalance)
            else
              && r == Ok && Conserved(s') && s'.supply == s.supply
              && (forall a :: BalanceOf(s', a)
                              == BalanceOf(s, a) - (if a == from then value else 0) + (if a == to then value else 0))
              && (forall o, p :: Allowance(s', o, p) == Allowance(s, o, p) - if o == from && p == caller then value else 0)
  {
    TransferMoves(s, from, to, value);
  }

  /** What a successful message takes from `who` and what it brings. */
  function SentBy(s: State, m: Message, who: AccountId): nat {
    if Step(s, m).1.Err? then 0
    else
      match m
      case Transfer(caller, _, value) => if caller == who then value else 0
      case Spend(_, from, _, value) => if from == who then value else 0
      case Allow(_, _, _) => 0
  }

  function ReceivedBy(s: State, m: Message, who: AccountId): nat {
    if Step(s, m).1.Err? || m.Allow? || m.to != who then 0 else m.value
  }

  function TotalSent(s: State, ms: seq<Message>, who: AccountId): nat {
    if ms == [] then 0
    else TotalSent(s, ms[..|ms| - 1], who) + SentBy(Run(s, ms[..|ms| - 1]), ms[|ms| - 1], who)
  }

  function TotalReceived(s: State, ms: seq<Message>, who: AccountId): nat {
    if ms == [] then 0
    else TotalReceived(s, ms[..|ms| - 1], who) + ReceivedBy(Run(s, ms[..|ms| - 1]), ms[|ms| - 1], who)
  }

  lemma StepBalances(s: State, m: Message, who: AccountId)
    requires Conserved(s)
    ensures BalanceOf(Step(s, m).0, who) + SentBy(s, m, who) == BalanceOf(s, who) + ReceivedBy(s, m, who)
    ensures Conserved(Step(s, m).0)
  {
    match m
    case Transfer(caller, to, value) => TransferMoves(s, caller, to, value);
    case Spend(caller, from, to, value) => SpendMoves(s, caller, from, to, value);
    case Allow(_, _, _) =>
  }

  /** Over every run, an account holds what it held, and what it received, less what it sent or had spent. */
  lemma {:induction false} BalanceIsHistory(s: State, ms: seq<Message>, who: AccountId)
    requires Conserved(s)
    ensures Conserved(Run(s, ms))
    ensures BalanceOf(Run(s, ms), who) + TotalSent(s, ms, who) == BalanceOf(s, who) + TotalReceived(s, ms, who)
  {
    if ms != [] {
      BalanceIsHistory(s, ms[..|ms| - 1], who);
      StepBalances(Run(s, ms[..|ms| - 1]), ms[|ms| - 1], who);
    }
  }

  /** No run creates or destroys tokens, no message traps, and a failed one changes nothing. */
  lemma {:induction false} SupplyIsConserved(caller: AccountId, supply: nat, ms: seq<Message>)
    requires supply <= MAX_BALANCE
    ensures Conserved(Run(New(caller, supply), ms)) && Run(New(caller, supply), ms).supply == supply
    ensures ms != [] ==>
              var before := Run(New(caller, supply), ms[..|ms| - 1]);
              var (after, r) := Step(before, ms[|ms| - 1]);
              r != Err(Trapped) && (r.Err? ==> after == before)
  {
    if ms == [] {
      SumUpdated(map[], caller, supply);
      assert map[][caller := supply] == map[caller := supply];
    } else {
      SupplyIsConserved(caller, supply, ms[..|ms| - 1]);
      var s := Run(New(caller, supply), ms[..|ms| - 1]);
      match ms[|ms| - 1]
      case Transfer(from, to, value) => TransferMoves(s, from, to, value);
      case Allow(_, _, _) =>
      case Spend(_, from, to, value) => TransferMoves(s, from, to, value);
    }
  }

  /** Between approvals of a pair, what is spent is what the allowance drops by. */
  lemma {:induction false} AllowanceIsSpent(s: State, ms: seq<Message>, owner: AccountId, spender: AccountId)
    requires forall i :: 0 <= i < |ms| ==> !(ms[i].Allow? && ms[i].caller == owner && ms[i].spender == spender)
    ensures Allowance(Run(s, ms), owner, spender) + Spent(s, ms, owner, spender) == Allowance(s, owner, spender)
  {
    if ms != [] {
      AllowanceIsSpent(s, ms[..|ms| - 1], owner, spender);
    }
  }

  /** An approval replaces what was allowed before and caps what is spent: until the next approval of the pair,
      whatever else happens, the spender moves at most `value` and what is left is the rest of it. */
  lemma ApprovalCapsSpending(s: State, owner: AccountId, spender: AccountId, value: nat, ms: seq<Message>)
    requires forall i :: 0 <= i < |ms| ==> !(ms[i].Allow? && ms[i].caller == owner && ms[i].spender == spender)
    ensures var approved := Approve(s, owner, spender, value);
            && Spent(approved, ms, owner, spender) <= value
            && Allowance(Run(approved, ms), owner, spender) == value - Spent(approved, ms, owner, spender)
  {
    AllowanceIsSpent(Approve(s, owner, spender, value), ms, owner, spender);
  }
}
