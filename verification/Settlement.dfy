/** Counting and filtering the legs of a settlement instruction. */
module Settlement {
  import opened Division

  const U32: nat := 0x1_0000_0000
  const LIMIT: nat := 1024

  type PortfolioId = nat

  /** A non-fungible leg moves a number of NFTs. */
  datatype Leg =
    | Fungible(sender: PortfolioId, receiver: PortfolioId, amount: nat)
    | NonFungible(sender: PortfolioId, receiver: PortfolioId, nfts: nat)
    | OffChain(amount: nat)

  datatype Count = Count(fungible: nat, nonFungible: nat, offChain: nat)

  // ----- what is to be counted -----

  function Weight(leg: Leg): Count {
    match leg
    case Fungible(_, _, _) => Count(1, 0, 0)
    case NonFungible(_, _, nfts) => Count(0, nfts, 0)
    case OffChain(_) => Count(0, 0, 1)
  }

  function Plus(a: Count, b: Count): Count {
    Count(a.fungible + b.fungible, a.nonFungible + b.nonFungible, a.offChain + b.offChain)
  }

  function Total(legs: seq<Leg>): Count {
    if legs == [] then Count(0, 0, 0) else Plus(Total(legs[..|legs| - 1]), Weight(legs[|legs| - 1]))
  }

  function Wrapped(c: Count): Count {
    Count(c.fungible % U32, c.nonFungible % U32, c.offChain % U32)
  }

  predicate Allowed(c: Count) {
    c.fungible <= LIMIT && c.nonFungible <= LIMIT && c.offChain <= LIMIT
  }

  lemma WrapOnce(x: nat, y: nat)
    ensures (x % U32 + y) % U32 == (x + y) % U32
  {
    DivAddMultiple(x % U32 + y, U32, x / U32);
  }

  lemma WrappedPlus(a: Count, b: Count)
    ensures Wrapped(Plus(Wrapped(a), b)) == Wrapped(Plus(a, b))
    ensures Wrapped(Wrapped(a)) == Wrapped(a)
  {
    assert (a.fungible % U32 + b.fungible) % U32 == (a.fungible + b.fungible) % U32 by { WrapOnce(a.fungible, b.fungible); }
    assert (a.nonFungible % U32 + b.nonFungible) % U32 == (a.nonFungible + b.nonFungible) % U32 by { WrapOnce(a.nonFungible, b.nonFungible); }
    assert (a.offChain % U32 + b.offChain) % U32 == (a.offChain + b.offChain) % U32 by { WrapOnce(a.offChain, b.offChain); }
  }

  lemma {:induction false} TotalGrows(legs: seq<Leg>, n: nat)
    requires n <= |legs|
    ensures Allowed(Total(legs)) ==> Allowed(Total(legs[..n]))
  {
    if n < |legs| {
      TotalGrows(legs[..|legs| - 1], n);
      assert legs[..|legs| - 1][..n] == legs[..n];
    } else {
      assert legs[..n] == legs;
    }
  }

  /** The count that is held against the limit: the NFTs are added up before they become a `u32`. */
  function Attempted(c: Count, leg: Leg): nat {
    match leg
    case Fungible(_, _, _) => (c.fungible + 1) % U32
    case NonFungible(_, _, nfts) => c.nonFungible + nfts
    case OffChain(_) => (c.offChain + 1) % U32
  }

  lemma AllowedIsSmall(c: Count)
    requires Allowed(c)
    ensures Wrapped(c) == c
  {
  }

  lemma TotalStep(legs: seq<Leg>, i: nat)
    requires i < |legs|
    ensures Total(legs[..i + 1]) == Plus(Total(legs[..i]), Weight(legs[i]))
  {
    assert legs[..i + 1][..i] == legs[..i];
  }

  // ----- what the totals count -----

  ghost function FungibleLegs(legs: seq<Leg>): set<nat> {
    set i: nat | i < |legs| && legs[i].Fungible?
  }

  ghost function OffChainLegs(legs: seq<Leg>): set<nat> {
    set i: nat | i < |legs| && legs[i].OffChain?
  }

  /** The NFTs that the legs move, summed from the front. */
  function NftsMoved(legs: seq<Leg>): nat {
    if legs == [] then 0 else (if legs[0].NonFungible? then legs[0].nfts else 0) + NftsMoved(legs[1..])
  }

  lemma {:induction false} NftsAppend(legs: seq<Leg>, leg: Leg)
    ensures NftsMoved(legs + [leg]) == NftsMoved(legs) + if leg.NonFungible? then leg.nfts else 0
  {
    if legs != [] {
      NftsAppend(legs[1..], leg);
      assert (legs + [leg])[1..] == legs[1..] + [leg];
    }
  }

  /** The totals are the number of fungible legs, the number of NFTs and the number of off-chain legs. */
  lemma {:induction false} TotalCountsByKind(legs: seq<Leg>)
    ensures Total(legs).fungible == |FungibleLegs(legs)| && Total(legs).offChain == |OffChainLegs(legs)|
    ensures Total(legs).nonFungible == NftsMoved(legs)
  {
    if legs == [] {
      assert FungibleLegs(legs) == {} && OffChainLegs(legs) == {};
    } else {
      var n := |legs| - 1;
      var init, leg := legs[..n], legs[n];
      TotalCountsByKind(init);
      NftsAppend(init, leg);
      assert init + [leg] == legs;
      FungibleAppend(legs, n);
      OffChainAppend(legs, n);
    }
  }

  /** An instruction is within the limit with up to 1024 legs or NFTs of each kind, and no more. */
  lemma AllowedIsAtMost1024(legs: seq<Leg>)
    ensures Allowed(Total(legs))
            <==> |FungibleLegs(legs)| <= 1024 && NftsMoved(legs) <= 1024 && |OffChainLegs(legs)| <= 1024
  {
    TotalCountsByKind(legs);
  }

  lemma FungibleAppend(legs: seq<Leg>, n: nat)
    requires |legs| == n + 1
    ensures |FungibleLegs(legs)| == |FungibleLegs(legs[..n])| + if legs[n].Fungible? then 1 else 0
  {
    assert FungibleLegs(legs) == FungibleLegs(legs[..n]) + if legs[n].Fungible? then {n} else {};
  }

  lemma OffChainAppend(legs: seq<Leg>, n: nat)
    requires |legs| == n + 1
    ensures |OffChainLegs(legs)| == |OffChainLegs(legs[..n])| + if legs[n].OffChain? then 1 else 0
  {
    assert OffChainLegs(legs) == OffChainLegs(legs[..n]) + if legs[n].OffChain? then {n} else {};
  }

  // ----- the counters -----

  /** The `u32` counters of a set of legs. */
  class AssetCount {
    var fungible: nat
    var nonFungible: nat
    var offChain: nat

    ghost function View(): Count
      reads this
    {
      Count(fungible, nonFungible, offChain)
    }

    constructor (fungible: nat, nonFungible: nat, offChain: nat)
      requires fungible < U32 && nonFungible < U32 && offChain < U32
      ensures View() == Count(fungible, nonFungible, offChain)
    {
      this.fungible, this.nonFungible, this.offChain := fungible, nonFungible, offChain;
    }

    /** The unchecked additions. */
    method Add(leg: Leg)
      requires View() == Wrapped(View())
      modifies this
      ensures View() == Wrapped(Plus(old(View()), Weight(leg)))
    {
      match leg {
        case Fungible(_, _, _) => fungible := (fungible + 1) % U32;
        case NonFungible(_, _, nfts) =>
          WrapOnce(nfts, nonFungible);
          nonFungible := (nonFungible + nfts % U32) % U32;
        case OffChain(_) => offChain := (offChain + 1) % U32;
      }
    }

    /** The checked additions: refused, and nothing added, if the counter of the kind would pass the limit.
        Counters within the limit stay there. */
    method TryAdd(leg: Leg) returns (ok: bool)
      requires View() == Wrapped(View())
      modifies this
      ensures ok <==> Attempted(old(View()), leg) <= LIMIT
      ensures View() == if ok then Wrapped(Plus(old(View()), Weight(leg))) else old(View())
      ensures old(Allowed(View())) ==> (ok <==> Allowed(Plus(old(View()), Weight(leg)))) && Allowed(View())
    {
      match leg {
        case Fungible(_, _, _) =>
          if (fungible + 1) % U32 > LIMIT {
            return false;
          }
          fungible := (fungible + 1) % U32;
        case NonFungible(_, _, nfts) =>
          if nfts + nonFungible > LIMIT {
            return false;
          }
          nonFungible := nonFungible + nfts;
        case OffChain(_) =>
          if (offChain + 1) % U32 > LIMIT {
            return false;
          }
          offChain := (offChain + 1) % U32;
      }
      return true;
    }
  }

  /** `from_legs`: the totals, each as a `u32`. */
  method FromLegs(legs: seq<Leg>) returns (c: AssetCount)
    ensures fresh(c) && c.View() == Wrapped(Total(legs))
  {
    c := new AssetCount(0, 0, 0);
    for i := 0 to |legs|
      invariant c.View() == Wrapped(Total(legs[..i]))
      invariant fresh(c)
    {
      TotalStep(legs, i);
      WrappedPlus(Total(legs[..i]), Weight(legs[i]));
      c.Add(legs[i]);
    }
    assert legs[..|legs|] == legs;
  }

  /** `try_from_legs`: succeeds exactly if every kind is within the limit, and then counts as `from_legs`. */
  method TryFromLegs(legs: seq<Leg>) returns (c: AssetCount?)
    ensures c != null <==> Allowed(Total(legs))
    ensures c != null ==> fresh(c) && c.View() == Total(legs) == Wrapped(Total(legs))
  {
    c := new AssetCount(0, 0, 0);
    for i := 0 to |legs|
      invariant c != null && fresh(c) && c.View() == Total(legs[..i]) && Allowed(c.View())
    {
      TotalStep(legs, i);
      AllowedIsSmall(c.View());
      var ok := c.TryAdd(legs[i]);
      if !ok {
        TotalGrows(legs, i + 1);
        return null;
      }
      AllowedIsSmall(Total(legs[..i + 1]));
    }
    assert legs[..|legs|] == legs;
    AllowedIsSmall(c.View());
  }

  // ----- filtering -----

  type Entry = (nat, Leg)

  function Legs(entries: seq<Entry>): seq<Leg> {
    seq(|entries|, i requires 0 <= i < |entries| => entries[i].1)
  }

  predicate SentFrom(leg: Leg, portfolios: set<PortfolioId>) {
    !leg.OffChain? && leg.sender in portfolios
  }

  /** The entries that are sent from the given portfolios, in their order. */
  function Sent(entries: seq<Entry>, portfolios: set<PortfolioId>): seq<Entry> {
    if entries == [] then []
    else
      var last := entries[|entries| - 1];
      Sent(entries[..|entries| - 1], portfolios) + if SentFrom(last.1, portfolios) then [last] else []
  }

  /** What the given portfolios only receive. */
  function Received(entries: seq<Entry>, portfolios: set<PortfolioId>): Count {
    if entries == [] then Count(0, 0, 0)
    else
      var leg := entries[|entries| - 1].1;
      var rest := Received(entries[..|entries| - 1], portfolios);
      if !leg.OffChain? && leg.sender !in portfolios && leg.receiver in portfolios then Plus(rest, Weight(leg)) else rest
  }

  lemma LegsAppend(entries: seq<Entry>, e: Entry)
    ensures Legs(entries + [e]) == Legs(entries) + [e.1]
    ensures Total(Legs(entries + [e])) == Plus(Total(Legs(entries)), Weight(e.1))
  {
    assert (Legs(entries) + [e.1])[..|entries|] == Legs(entries);
  }

  lemma LegsSplit(entries: seq<Entry>)
    requires entries != []
    ensures Total(Legs(entries)) == Plus(Total(Legs(entries[..|entries| - 1])), Weight(entries[|entries| - 1].1))
  {
    LegsAppend(entries[..|entries| - 1], entries[|entries| - 1]);
    assert entries[..|entries| - 1] + [entries[|entries| - 1]] == entries;
  }

  /** `filter_sender`: the subset sent from the portfolios, with counters that recount it, what they receive, and
      the counters of everything. */
  method FilterSender(entries: seq<Entry>, portfolios: set<PortfolioId>)
    returns (subset: seq<Entry>, sender: AssetCount, receiver: AssetCount, unfiltered: AssetCount)
    ensures subset == Sent(entries, portfolios)
    ensures fresh(sender) && sender.View() == Wrapped(Total(Legs(subset)))
    ensures fresh(receiver) && receiver.View() == Wrapped(Received(entries, portfolios))
    ensures fresh(unfiltered) && unfiltered.View() == Wrapped(Total(Legs(entries)))
  {
    unfiltered := FromLegs(Legs(entries));
    sender := new AssetCount(0, 0, 0);
    receiver := new AssetCount(0, 0, 0);
    subset := [];
    for i := 0 to |entries|
      invariant fresh(sender) && fresh(receiver) && fresh(unfiltered)
      invariant sender != receiver && sender != unfiltered && receiver != unfiltered
      invariant subset == Sent(entries[..i], portfolios)
      invariant sender.View() == Wrapped(Total(Legs(subset)))
      invariant receiver.View() == Wrapped(Received(entries[..i], portfolios))
      invariant unfiltered.View() == Wrapped(Total(Legs(entries)))
    {
      assert entries[..i + 1][..i] == entries[..i];
      var leg := entries[i].1;
      if !leg.OffChain? {
        if leg.sender in portfolios {
          LegsAppend(subset, entries[i]);
          WrappedPlus(Total(Legs(subset)), Weight(leg));
          sender.Add(leg);
          subset := subset + [entries[i]];
        } else if leg.receiver in portfolios {
          WrappedPlus(Received(entries[..i], portfolios), Weight(leg));
          receiver.Add(leg);
        }
      }
    }
    assert entries[..|entries|] == entries;
  }

  /** The entries that go to the given portfolios, in their order. */
  function To(entries: seq<Entry>, portfolios: set<PortfolioId>): seq<Entry> {
    if entries == [] then []
    else
      var last := entries[|entries| - 1];
      To(entries[..|entries| - 1], portfolios)
      + if !last.1.OffChain? && last.1.receiver in portfolios then [last] else []
  }

  lemma ToAppend(entries: seq<Entry>, e: Entry, portfolios: set<PortfolioId>)
    ensures To(entries + [e], portfolios)
            == To(entries, portfolios) + if !e.1.OffChain? && e.1.receiver in portfolios then [e] else []
  {
    assert (entries + [e])[..|entries|] == entries;
  }

  /** Where every on-chain leg is sent by one of two sides, what one side counts as received is what the other
      side sends to it. */
  lemma {:induction false} ReceivedIsSentByOthers(entries: seq<Entry>, senders: set<PortfolioId>, receivers: set<PortfolioId>)
    requires senders !! receivers
    requires forall i :: 0 <= i < |entries| && !entries[i].1.OffChain? ==> entries[i].1.sender in senders + receivers
    ensures Received(entries, receivers) == Total(Legs(To(Sent(entries, senders), receivers)))
  {
    if entries != [] {
      var init, last := entries[..|entries| - 1], entries[|entries| - 1];
      ReceivedIsSentByOthers(init, senders, receivers);
      assert !last.1.OffChain? ==> last.1.sender in senders + receivers;
      if SentFrom(last.1, senders) {
        assert last.1.sender !in receivers;
        assert Sent(entries, senders) == Sent(init, senders) + [last];
        ToAppend(Sent(init, senders), last, receivers);
        if last.1.receiver in receivers {
          LegsAppend(To(Sent(init, senders), receivers), last);
          assert Received(entries, receivers) == Plus(Received(init, receivers), Weight(last.1));
        } else {
          assert To(Sent(entries, senders), receivers) == To(Sent(init, senders), receivers);
          assert Received(entries, receivers) == Received(init, receivers);
        }
      } else {
        assert Sent(entries, senders) == Sent(init, senders);
      }
    }
  }

  /** `sub` is `s` with some elements left out. */
  predicate IsSubsequence<T(==)>(sub: seq<T>, s: seq<T>) {
    if sub == [] then true
    else if s == [] then false
    else if sub[|sub| - 1] == s[|s| - 1] then IsSubsequence(sub[..|sub| - 1], s[..|s| - 1])
    else IsSubsequence(sub, s[..|s| - 1])
  }

  /** The subset keeps the order and leaves out exactly what is not sent from the portfolios. */
  lemma {:induction false} SentIsSubsequence(entries: seq<Entry>, portfolios: set<PortfolioId>)
    ensures forall e :: e in Sent(entries, portfolios) <==> e in entries && SentFrom(e.1, portfolios)
    ensures IsSubsequence(Sent(entries, portfolios), entries)
  {
    if entries != [] {
      var init, last := entries[..|entries| - 1], entries[|entries| - 1];
      SentIsSubsequence(init, portfolios);
      assert forall e :: e in entries <==> e in init || e == last;
      var sub := Sent(init, portfolios);
      if SentFrom(last.1, portfolios) {
        assert (sub + [last])[..|sub|] == sub;
      } else {
        assert sub + [] == sub;
        assert last !in sub;
      }
    }
  }

  lemma SentSplit(entries: seq<Entry>, portfolios: set<PortfolioId>)
    requires entries != []
    ensures var init, leg := entries[..|entries| - 1], entries[|entries| - 1].1;
            var rest := Total(Legs(Sent(init, portfolios)));
            Total(Legs(Sent(entries, portfolios))) == if SentFrom(leg, portfolios) then Plus(rest, Weight(leg)) else rest
  {
    var init, last := entries[..|entries| - 1], entries[|entries| - 1];
    LegsAppend(Sent(init, portfolios), last);
    assert Sent(init, portfolios) + [] == Sent(init, portfolios);
  }

  /** The subset's count, leg by leg. */
  function SentTotal(entries: seq<Entry>, portfolios: set<PortfolioId>): Count {
    if entries == [] then Count(0, 0, 0)
    else
      var leg := entries[|entries| - 1].1;
      Plus(SentTotal(entries[..|entries| - 1], portfolios),
           if SentFrom(leg, portfolios) then Weight(leg) else Count(0, 0, 0))
  }

  lemma {:induction false} SentTotalCounts(entries: seq<Entry>, portfolios: set<PortfolioId>)
    ensures SentTotal(entries, portfolios) == Total(Legs(Sent(entries, portfolios)))
  {
    if entries == [] {
      assert Legs([]) == [];
    } else {
      SentTotalCounts(entries[..|entries| - 1], portfolios);
      SentSplit(entries, portfolios);
    }
  }

  lemma {:induction false} SentTotalsAdd(entries: seq<Entry>, a: set<PortfolioId>, b: set<PortfolioId>)
    requires a !! b
    ensures SentTotal(entries, a + b) == Plus(SentTotal(entries, a), SentTotal(entries, b))
  {
    if entries != [] {
      SentTotalsAdd(entries[..|entries| - 1], a, b);
    }
  }

  /** Disjoint sets of portfolios send disjoint parts: their counts add up. */
  lemma SentCountsAdd(entries: seq<Entry>, a: set<PortfolioId>, b: set<PortfolioId>)
    requires a !! b
    ensures Total(Legs(Sent(entries, a + b))) == Plus(Total(Legs(Sent(entries, a))), Total(Legs(Sent(entries, b))))
  {
    SentTotalsAdd(entries, a, b);
    SentTotalCounts(entries, a + b);
    SentTotalCounts(entries, a);
    SentTotalCounts(entries, b);
  }

  /** A set that covers all senders sends every on-chain leg: only the off-chain count is missing. */
  lemma {:induction false} CoveringSetSendsAll(entries: seq<Entry>, portfolios: set<PortfolioId>)
    requires forall i :: 0 <= i < |entries| && !entries[i].1.OffChain? ==> entries[i].1.sender in portfolios
    ensures Total(Legs(Sent(entries, portfolios))) == Total(Legs(entries)).(offChain := 0)
  {
    if entries == [] {
      assert Legs(entries) == [];
    } else {
      CoveringSetSendsAll(entries[..|entries| - 1], portfolios);
      LegsSplit(entries);
      SentSplit(entries, portfolios);
    }
  }
}
