/** Secondary key permissions. */
module SecondaryKey {
  import opened Subset

  type Name = string
  type Ticker = nat
  type PortfolioId = nat

  datatype PalletPermissions = PalletPermissions(pallet: Name, dispatchables: Restriction<Name>)

  type ExtrinsicPermissions = Restriction<PalletPermissions>

  /** `matches_any`: one of the entries is for this pallet and its names include the dispatchable. */
  predicate MatchesAny(perms: set<PalletPermissions>, pallet: Name, dispatchable: Name) {
    exists p :: p in perms && p.pallet == pallet
                && match p.dispatchables
                   case Whole => true
                   case These(names) => dispatchable in names
                   case Except(names) => dispatchable !in names
  }

  /** `sufficient_for`. */
  predicate SufficientFor(e: ExtrinsicPermissions, pallet: Name, dispatchable: Name) {
    match e
    case Whole => true
    case These(perms) => MatchesAny(perms, pallet, dispatchable)
    case Except(perms) => !MatchesAny(perms, pallet, dispatchable)
  }

  function Added(e: ExtrinsicPermissions, p: PalletPermissions): ExtrinsicPermissions {
    Union(e, These({p}))
  }

  function AddedAll(e: ExtrinsicPermissions, ps: seq<PalletPermissions>): ExtrinsicPermissions {
    if ps == [] then e else Added(AddedAll(e, ps[..|ps| - 1]), ps[|ps| - 1])
  }

  class Permissions {
    var asset: Restriction<Ticker>
    var extrinsic: ExtrinsicPermissions
    var portfolio: Restriction<PortfolioId>

    constructor (asset: Restriction<Ticker>, extrinsic: ExtrinsicPermissions, portfolio: Restriction<PortfolioId>)
      ensures this.asset == asset && this.extrinsic == extrinsic && this.portfolio == portfolio
    {
      this.asset, this.extrinsic, this.portfolio := asset, extrinsic, portfolio;
    }

    method AddPalletPermissions(p: PalletPermissions)
      modifies this`extrinsic
      ensures extrinsic == Added(old(extrinsic), p)
    {
      extrinsic := Union(extrinsic, These({p}));
    }

    predicate HasAssetPermission(ticker: Ticker)
      reads this
    {
      Ge(asset, These({ticker}))
    }

    predicate HasPortfolioPermission(portfolios: seq<PortfolioId>)
      reads this
    {
      Ge(portfolio, These(set p | p in portfolios))
    }

    /** Access is granted exactly to what the permission sets describe. */
    lemma PermissionsAreMembership(ticker: Ticker, portfolios: seq<PortfolioId>)
      ensures HasAssetPermission(ticker) <==> ticker in Denotes(asset)
      ensures HasPortfolioPermission(portfolios) <==> forall p :: p in portfolios ==> p in Denotes(portfolio)
    {
      GeFinite(asset, {ticker});
      GeFinite(portfolio, set p | p in portfolios);
    }
  }

  /** The single entry `p` permits the call. */
  predicate Permits(p: PalletPermissions, pallet: Name, dispatchable: Name) {
    MatchesAny({p}, pallet, dispatchable)
  }

  lemma MatchesAnyUnion(a: set<PalletPermissions>, b: set<PalletPermissions>, pallet: Name, dispatchable: Name)
    ensures MatchesAny(a + b, pallet, dispatchable) <==> MatchesAny(a, pallet, dispatchable) || MatchesAny(b, pallet, dispatchable)
  {
  }

  /** An entry for this pallet whose dispatchables include the one called. */
  ghost predicate Covers(p: PalletPermissions, pallet: Name, dispatchable: Name) {
    p.pallet == pallet && dispatchable in Denotes(p.dispatchables)
  }

  /** A call is permitted if and only if an entry covers it, or on a set of exceptions, if and only if none does. */
  lemma SufficientIsCovered(e: ExtrinsicPermissions, pallet: Name, dispatchable: Name)
    ensures e.Whole? ==> SufficientFor(e, pallet, dispatchable)
    ensures e.These? ==> (SufficientFor(e, pallet, dispatchable) <==> exists p :: p in e.elems && Covers(p, pallet, dispatchable))
    ensures e.Except? ==> (SufficientFor(e, pallet, dispatchable) <==> forall p :: p in e.elems ==> !Covers(p, pallet, dispatchable))
  {
    if !e.Whole? {
      MatchesIsCovered(e.elems, pallet, dispatchable);
    }
  }

  lemma MatchesIsCovered(perms: set<PalletPermissions>, pallet: Name, dispatchable: Name)
    ensures MatchesAny(perms, pallet, dispatchable) <==> exists p :: p in perms && Covers(p, pallet, dispatchable)
  {
    if p :| p in perms && Covers(p, pallet, dispatchable) {
      assert Contains(p.dispatchables, dispatchable);
    }
    if MatchesAny(perms, pallet, dispatchable) {
      var p :| p in perms && p.pallet == pallet
               && match p.dispatchables
                  case Whole => true
                  case These(names) => dispatchable in names
                  case Except(names) => dispatchable !in names;
      assert Covers(p, pallet, dispatchable);
    }
  }

  /** Adding an entry for one pallet leaves every call of every other pallet as it was. */
  lemma AddedLeavesOtherPallets(e: ExtrinsicPermissions, p: PalletPermissions, pallet: Name, dispatchable: Name)
    requires p.pallet != pallet
    ensures SufficientFor(Added(e, p), pallet, dispatchable) <==> SufficientFor(e, pallet, dispatchable)
  {
    SufficientIsCovered(e, pallet, dispatchable);
    SufficientIsCovered(Added(e, p), pallet, dispatchable);
    if e.Except? {
      assert forall q :: q in e.elems && Covers(q, pallet, dispatchable) ==> q in e.elems - {p};
    }
  }

  /** Adding an entry never revokes a call.  It grants exactly the calls of the entry on a list of permitted
      entries; on a list of exceptions, exactly the calls that no other exception covers. */
  lemma AddedGrants(e: ExtrinsicPermissions, p: PalletPermissions, pallet: Name, dispatchable: Name)
    ensures SufficientFor(e, pallet, dispatchable) ==> SufficientFor(Added(e, p), pallet, dispatchable)
    ensures e.These? ==> (SufficientFor(Added(e, p), pallet, dispatchable)
                          <==> SufficientFor(e, pallet, dispatchable) || Permits(p, pallet, dispatchable))
    ensures e.Except? ==> (SufficientFor(Added(e, p), pallet, dispatchable)
                           <==> !MatchesAny(e.elems - {p}, pallet, dispatchable))
  {
    if e.These? {
      MatchesAnyUnion(e.elems, {p}, pallet, dispatchable);
    }
    if e.Except? {
      MatchesAnyUnion(e.elems - {p}, e.elems * {p}, pallet, dispatchable);
      assert (e.elems - {p}) + (e.elems * {p}) == e.elems;
    }
  }

  /** So does adding any sequence of entries. */
  lemma {:induction false} AddedAllGrants(e: ExtrinsicPermissions, ps: seq<PalletPermissions>, pallet: Name, dispatchable: Name)
    ensures SufficientFor(e, pallet, dispatchable) ==> SufficientFor(AddedAll(e, ps), pallet, dispatchable)
    ensures e.These? ==> AddedAll(e, ps).These?
    ensures e.These? ==> (SufficientFor(AddedAll(e, ps), pallet, dispatchable)
                          <==> SufficientFor(e, pallet, dispatchable) || exists p :: p in ps && Permits(p, pallet, dispatchable))
    ensures e.Except? ==> AddedAll(e, ps) == Except(e.elems - (set p | p in ps))
    ensures e.Except? ==> (SufficientFor(AddedAll(e, ps), pallet, dispatchable)
                           <==> !MatchesAny(e.elems - (set p | p in ps), pallet, dispatchable))
  {
    if ps != [] {
      var init, last := ps[..|ps| - 1], ps[|ps| - 1];
      AddedAllGrants(e, init, pallet, dispatchable);
      AddedGrants(AddedAll(e, init), last, pallet, dispatchable);
      assert forall p :: p in ps <==> p in init || p == last;
      assert e.Except? ==> e.elems - (set p | p in ps) == e.elems - (set p | p in init) - {last};
    } else {
      assert e.Except? ==> e.elems - (set p | p in ps) == e.elems;
    }
  }

  /** With the pallet excepted as a whole, adding one of its dispatchables does not permit it. */
  lemma AddedIsNotGranted()
    ensures var e, p := Except({PalletPermissions("asset", Whole)}), PalletPermissions("asset", These({"issue"}));
            Permits(p, "asset", "issue") && !SufficientFor(Added(e, p), "asset", "issue")
  {
    var all, one := PalletPermissions("asset", Whole), PalletPermissions("asset", These({"issue"}));
    assert one in {one} && all in {all} - {one};
    AddedGrants(Except({all}), one, "asset", "issue");
  }
}
