/** What the bridge limit leaves an identity is the limit less what the log says it bridged in the current
    interval: the stored totals never go stale. */
module BridgeAllowance {
  import opened Wrappers
  import opened Division
  import opened BridgeSpec
  import opened BridgeSafety
  import opened BridgeDelivery
  import opened BridgeLimits

  lemma {:induction false} ExemptLogIsFree(log: seq<Mint>, did: Did, duration: Block, n: nat)
    requires duration > 0 && forall i :: 0 <= i < |log| ==> log[i].exempt
    ensures InInterval(log, did, duration, n) == 0
  {
    if log != [] {
      ExemptLogIsFree(log[..|log| - 1], did, duration, n);
    }
  }

  lemma {:induction false} GenesisIsExempt(s: State, env: Env, txs: seq<BridgeTx>)
    requires Blank(s) && Genesis(s, env, txs).Some?
    ensures var g := Genesis(s, env, txs).value;
            && (forall i :: 0 <= i < |g.log| ==> g.log[i].exempt)
            && g.bridged == map[] && g.limit == s.limit && g.duration == s.duration
  {
    if txs != [] {
      GenesisIsExempt(s, env, txs[..|txs| - 1]);
    }
  }

  lemma GenesisIsBounded(s: State, env: Env, txs: seq<BridgeTx>, did: Did)
    requires Blank(s) && s.duration > 0 && Genesis(s, env, txs).Some?
    ensures Bounded(Genesis(s, env, txs).value, 0, did, true)
  {
    var g := Genesis(s, env, txs).value;
    GenesisIsExempt(s, env, txs);
    assert g.log[0..] == g.log;
    forall n: nat ensures InInterval(g.log, did, s.duration, n) == 0 {
      ExemptLogIsFree(g.log, did, s.duration, n);
    }
  }

  /** An exact total for an identity is what was minted to it in the current interval. */
  lemma ExactIsLogged(s: State, did: Did)
    requires Bounded(s, 0, did, true)
    ensures BridgedNow(s, did) == InInterval(s.log, did, s.duration, s.block / s.duration)
  {
    assert s.log[0..] == s.log;
  }

  /** The log leaves room for the amount. */
  ghost predicate HasRoom(s: State, env: Env, recipient: AccountId, amount: Balance)
    requires s.duration > 0
  {
    && recipient in env.cdd
    && var did := env.cdd[recipient];
       IsExempted(s, did) || amount + InInterval(s.log, did, s.duration, s.block / s.duration) <= s.limit
  }

  /** From genesis on, while the limit stays as it is: an amount can be issued if and only if the recipient
      has an identity that is exempted or has room left by what was minted to it in the current interval. */
  lemma IssuesIffRoom(s: State, env: Env, txs: seq<BridgeTx>, events: seq<(Env, Event)>,
                      env': Env, k: Key, amount: Balance)
    requires Blank(s) && s.duration > 0 && s.limit <= MAX_BALANCE && Genesis(s, env, txs).Some?
    requires SteadyLimit(Genesis(s, env, txs).value, events)
    ensures var s' := Run(Genesis(s, env, txs).value, events);
            && s'.duration > 0
            && (Issue(s', env', k, amount, None).1.Ok? <==> HasRoom(s', env', k.recipient, amount))
  {
    var g := Genesis(s, env, txs).value;
    GenesisIsExempt(s, env, txs);
    var did := if k.recipient in env'.cdd then env'.cdd[k.recipient] else 0;
    GenesisIsBounded(s, env, txs, did);
    RunStaysBounded(g, events, 0, did, true);
    ExactIsLogged(Run(g, events), did);
    IssuesIffMayBridge(Run(g, events), env', k, amount);
  }
}
