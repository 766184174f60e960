/** Runs that take the bridge where its diagram and its promises for undisturbed keys do not go. */
module BridgeWitnesses {
  import opened Wrappers
  import opened BridgeSpec
  import opened BridgeSafety
  import opened BridgeDelivery
  import opened BridgeAcceptance
  import opened BridgeTransitions

  const ADMIN := Signed(1)
  const CONTROLLER := Signed(2)

  /** A chain at block zero, with a timelock of five blocks unless stated otherwise. */
  function Opening(timelock: Block): State {
    State(map[], Some(1), Some(2), {}, false, timelock, 1000, 100, map[], map[], 0, multiset{}, map[], 0, [])
  }

  /** Recipient 7 has identity 70 in the one environment and none in the other. */
  const KNOWN := Env(map[7 := 70], true, true)
  const UNKNOWN := Env(map[], true, true)

  function Transfer(amount: Balance): BridgeTx {
    BridgeTx(0, 7, amount, 0)
  }

  const KEY := Key(7, 0)

  lemma OpeningIsBlank(timelock: Block)
    ensures Blank(Opening(timelock))
  {
  }

  lemma FreezeAllOfOne(s: State, tx: BridgeTx)
    ensures FreezeAll(s, [tx]) == FreezeOne(s, tx)
  {
    assert [tx][..0] == [];
  }

  lemma UnfreezeAllOfOne(s: State, env: Env, tx: BridgeTx)
    ensures UnfreezeAll(s, env, [tx]) == UnfreezeOne(s, env, tx)
  {
    assert [tx][..0] == [];
  }

  // ----- edges the diagram does not have -----

  /** Submitted for 10, so that its call is queued for block 6. */
  function Submitted(): State {
    Step(Opening(5), UNKNOWN, Submit(CONTROLLER, HandleBridgeTx(Transfer(10))))
  }

  lemma SubmittedState()
    ensures Submitted() == Opening(5).(details := map[KEY := Detail(10, Timelocked, 6, 0)],
                                       queue := multiset{Scheduled(6, Transfer(10))})
  {
  }

  /** Frozen then by the admin. */
  function Withheld(): State {
    Step(Submitted(), UNKNOWN, Submit(ADMIN, FreezeTxs([Transfer(10)])))
  }

  lemma WithheldState()
    ensures Withheld() == Opening(5).(details := map[KEY := Detail(10, Frozen, 6, 0)],
                                      queue := multiset{Scheduled(6, Transfer(10))})
  {
    SubmittedState();
    FreezeAllOfOne(Submitted(), Transfer(10));
    assert Withheld().details == map[KEY := Detail(10, Frozen, 6, 0)];
  }

  /** An identity that bridged nothing yet may bridge up to the limit. */
  lemma OpeningMayBridge(s: State, amount: Balance)
    requires s.bridged == map[] && s.exempted == map[] && s.limit == 1000 && s.duration == 100 && amount <= 1000
    ensures MayBridge(s, KNOWN, 7, amount)
  {
  }

  /** The first call of a timelocked transaction handles it, without its ever being pending. */
  lemma TimelockedToHandled()
    ensures var s := Step(Submitted(), UNKNOWN, Advance(6));
            StatusOf(s, KEY).Timelocked? && StatusOf(Step(s, KNOWN, Fire(Scheduled(6, Transfer(10)))), KEY).Handled?
  {
    SubmittedState();
    var s := Step(Submitted(), UNKNOWN, Advance(6));
    OpeningMayBridge(s, 10);
    assert Scheduled(6, Transfer(10)) in s.queue;
    DueCallHandles(s, KNOWN, Scheduled(6, Transfer(10)));
  }

  /** Unfreezing handles a frozen transaction in one step. */
  lemma FrozenToHandled()
    ensures StatusOf(Withheld(), KEY).Frozen?
    ensures StatusOf(Step(Withheld(), KNOWN, Submit(ADMIN, UnfreezeTxs([Transfer(10)]))), KEY).Handled?
  {
    WithheldState();
    UnfreezeAllOfOne(Withheld(), KNOWN, Transfer(10));
    OpeningMayBridge(Withheld(), 10);
    UnfreezeOneHandles(Withheld(), KNOWN, Transfer(10));
  }

  // ----- a stale call -----

  /** Unfrozen while the recipient has no identity: the record is absent again and its call still queued. */
  function Disturbed(): State {
    Step(Withheld(), UNKNOWN, Submit(ADMIN, UnfreezeTxs([Transfer(10)])))
  }

  lemma DisturbedState()
    ensures Disturbed() == Opening(5).(details := map[KEY := Detail(10, Absent, 6, 0)],
                                       queue := multiset{Scheduled(6, Transfer(10))})
  {
    WithheldState();
    UnfreezeAllOfOne(Withheld(), UNKNOWN, Transfer(10));
    assert Disturbed().details == map[KEY := Detail(10, Absent, 6, 0)];
  }

  function BlockFour(): State {
    Step(Disturbed(), UNKNOWN, Advance(4))
  }

  lemma BlockFourState()
    ensures BlockFour() == Opening(5).(details := map[KEY := Detail(10, Absent, 6, 0)], block := 4,
                                       queue := multiset{Scheduled(6, Transfer(10))})
  {
    DisturbedState();
  }

  /** Submitted again at block 4, now for 8: the record is due at block 10, but the key has two calls. */
  function Resubmitted(): State {
    Step(BlockFour(), UNKNOWN, Submit(CONTROLLER, HandleBridgeTx(Transfer(8))))
  }

  lemma ResubmittedIsPutOff()
    ensures Resubmitted() == HandleLater(BlockFour(), UNKNOWN, Transfer(8), Detail(10, Absent, 6, 0), 5).0
  {
    BlockFourState();
  }

  lemma ResubmittedState()
    ensures Resubmitted() == Opening(5).(details := map[KEY := Detail(8, Timelocked, 10, 0)], block := 4,
                                         queue := multiset{Scheduled(6, Transfer(10)), Scheduled(10, Transfer(8))})
  {
    BlockFourState();
    ResubmittedIsPutOff();
    var d := LaterDetail(BlockFour(), Transfer(8), Detail(10, Absent, 6, 0), 5);
    assert Pow2(0) == 1;
    assert d == Detail(8, Timelocked, 10, 0);
    assert Resubmitted().details == map[KEY := d];
  }

  /** The state in which the call for 10 is due. */
  function Due(): State {
    Step(Resubmitted(), UNKNOWN, Advance(6))
  }

  lemma DueState()
    ensures Due() == Opening(5).(details := map[KEY := Detail(8, Timelocked, 10, 0)], block := 6,
                                 queue := multiset{Scheduled(6, Transfer(10)), Scheduled(10, Transfer(8))})
  {
    ResubmittedState();
  }

  /** After an administrator acted on a key, a stale call can mint an amount that is not on record, before the
      timelock of the record is over, and the key has two calls in the queue. */
  lemma StaleCallOverridesRecord()
    ensures !AtMostOneCall(Due(), KEY)
    ensures DetailOf(Due(), KEY) == Detail(8, Timelocked, 10, 0) && Due().log == []
    ensures var log := Step(Due(), KNOWN, Fire(Scheduled(6, Transfer(10)))).log;
            |log| == 1 && log[0].key == KEY && log[0].amount == 10 && log[0].block == 6
  {
    DueState();
    var c := Scheduled(6, Transfer(10));
    assert c in Due().queue && Scheduled(10, Transfer(8)) in Due().queue;
    OpeningMayBridge(Due(), 10);
    DueCallMintsItsAmount(Due(), KNOWN, c);
  }

  /** What a due call mints is its own amount: that of the record if and only if the two agree. */
  lemma DueCallMintsItsAmount(s: State, env: Env, c: Scheduled)
    requires c in s.queue && c.at <= s.block && s.limit <= MAX_BALANCE
    requires !StatusOf(s, KeyOf(c.tx)).Handled? && !StatusOf(s, KeyOf(c.tx)).Frozen?
    ensures var s', k := Step(s, env, Fire(c)), KeyOf(c.tx);
            if !s.frozen && MayBridge(s, env, c.tx.recipient, c.tx.amount) then
              && |s'.log| == |s.log| + 1 && s'.log[|s.log|].key == k
              && s'.log[|s.log|].amount == c.tx.amount && s'.log[|s.log|].block == s.block
              && (s'.log[|s.log|].amount == DetailOf(s', k).amount <==> c.tx.amount == DetailOf(s, k).amount)
            else s'.log == s.log
  {
    var mid := s.(queue := s.queue - multiset{c});
    IssuesIffMayBridge(mid, env, KeyOf(c.tx), c.tx.amount);
    assert MayBridge(mid, env, c.tx.recipient, c.tx.amount) <==> MayBridge(s, env, c.tx.recipient, c.tx.amount);
    IssueShape(mid, env, KeyOf(c.tx), c.tx.amount, None);
  }

  // ----- a key used up for nothing -----

  /** Freezing a key that was never submitted and unfreezing it mints nothing, and no run ever mints it again. */
  lemma FreezingUnknownUsesItUp(s: State, env: Env, env': Env, tx: BridgeTx, events: seq<(Env, Event)>)
    requires DetailOf(s, KeyOf(tx)) == DEFAULT_DETAIL && !s.frozen && s.limit <= MAX_BALANCE && s.admin.Some?
    requires env.hasIdentity && env'.hasIdentity && MayBridge(s, env', tx.recipient, 0)
    ensures var admin := Signed(s.admin.value);
            var s1 := Step(s, env, Submit(admin, FreezeTxs([tx])));
            var s2 := Step(s1, env', Submit(admin, UnfreezeTxs([tx])));
            && |s2.log| == |s.log| + 1 && s2.log[|s.log|].key == KeyOf(tx) && s2.log[|s.log|].amount == 0
            && StatusOf(s2, KeyOf(tx)).Handled?
            && DetailOf(Run(s2, events), KeyOf(tx)) == DetailOf(s2, KeyOf(tx))
            && (Safe(s) ==> Safe(Run(s2, events)))
  {
    var k, admin := KeyOf(tx), Signed(s.admin.value);
    var s1 := Step(s, env, Submit(admin, FreezeTxs([tx])));
    FreezeAllOfOne(s, tx);
    UnfreezeAllOfOne(s1, env', tx);
    var s2 := Step(s1, env', Submit(admin, UnfreezeTxs([tx])));
    var mid := Put(s1, k, DetailOf(s1, k).(status := Absent));
    IssuesIffMayBridge(mid, env', k, 0);
    assert MayBridge(mid, env', tx.recipient, 0) <==> MayBridge(s, env', tx.recipient, 0);
    IssueShape(mid, env', k, 0, None);
    HandledIsFinal(s2, events, k);
    StepKeeps(s, env, Submit(admin, FreezeTxs([tx])));
    StepKeeps(s1, env', Submit(admin, UnfreezeTxs([tx])));
    if Safe(s) {
      RunKeepsSafe(s2, events);
    }
  }
}
