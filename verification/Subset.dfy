/** Descriptions of finite and cofinite subsets, their comparison and their union. */
module Subset {

  datatype Restriction<A(==)> = Whole | These(elems: set<A>) | Except(elems: set<A>)

  datatype Ordering = Less | Equal | Incomparable | Greater

  predicate Contains<A(==)>(r: Restriction<A>, a: A) {
    match r
    case Whole => true
    case These(s) => a in s
    case Except(s) => a !in s
  }

  /** The set described. */
  ghost function Denotes<A(!new)>(r: Restriction<A>): iset<A> {
    iset a | Contains(r, a)
  }

  function Normalized<A>(r: Restriction<A>): Restriction<A> {
    if r == Except({}) then Whole else r
  }

  function CompareSame<A>(a: set<A>, b: set<A>): Ordering {
    if a <= b then (if b <= a then Equal else Less)
    else if b <= a then Greater
    else Incomparable
  }

  function CompareDifferent<A>(a: set<A>, b: set<A>, disjoint: Ordering): Ordering {
    if a !! b then disjoint else Incomparable
  }

  /** `lattice_cmp`. */
  function LatticeCmp<A>(left: Restriction<A>, right: Restriction<A>): Ordering {
    match (Normalized(left), Normalized(right))
    case (Whole, Whole) => Equal
    case (_, Whole) => Less
    case (Whole, _) => Greater
    case (These(a), These(b)) => CompareSame(a, b)
    case (Except(a), Except(b)) => CompareSame(b, a)
    case (These(a), Except(b)) => CompareDifferent(a, b, Less)
    case (Except(a), These(b)) => CompareDifferent(a, b, Greater)
  }

  /** `ge`. */
  predicate Ge<A>(left: Restriction<A>, right: Restriction<A>) {
    LatticeCmp(left, right).Greater? || LatticeCmp(left, right).Equal?
  }

  /** `union`. */
  function Union<A>(left: Restriction<A>, right: Restriction<A>): Restriction<A> {
    match (left, right)
    case (Whole, _) => Whole
    case (_, Whole) => Whole
    case (These(l), These(r)) => These(l + r)
    case (Except(l), Except(r)) => Except(l * r)
    case (These(l), Except(r)) => Except(r - l)
    case (Except(r), These(l)) => Except(r - l)
  }

  /** The universe is open: no finite set exhausts it. */
  ghost predicate IsOpen<A(!new)>() {
    forall s: set<A> :: MissesSome(s)
  }

  ghost predicate MissesSome<A(!new)>(s: set<A>) {
    exists x :: x !in s
  }

  ghost predicate Bounds(n: nat, s: set<nat>) {
    forall x :: x in s ==> x < n
  }

  lemma {:induction false} HasBound(s: set<nat>)
    ensures exists n: nat :: Bounds(n, s)
  {
    if y :| y in s {
      HasBound(s - {y});
      var n: nat :| Bounds(n, s - {y});
      var m: nat := if y < n then n else y + 1;
      forall x | x in s ensures x < m {
        assert x == y || x in s - {y};
      }
      assert Bounds(m, s);
    } else {
      assert Bounds(0, s);
    }
  }

  /** There are open universes, such as that of numbered tickers or portfolios. */
  lemma NumbersAreOpen()
    ensures IsOpen<nat>()
  {
    forall s: set<nat> ensures MissesSome(s) {
      HasBound(s);
      var n: nat :| Bounds(n, s);
      assert n !in s;
    }
  }

  /** How two sets really compare. */
  ghost function Compare<A(!new)>(x: iset<A>, y: iset<A>): Ordering {
    if x == y then Equal
    else if x <= y then Less
    else if y <= x then Greater
    else Incomparable
  }

  lemma NormalizedDenotes<A(!new)>(r: Restriction<A>)
    ensures Denotes(Normalized(r)) == Denotes(r)
  {
  }

  /** In an open universe a finite set never covers the complement of one. */
  lemma FiniteIsNotCofinite<A(!new)>(a: set<A>, b: set<A>)
    requires IsOpen<A>()
    ensures !(Denotes(Except(b)) <= Denotes(These(a)))
    ensures !(Denotes(Whole) <= Denotes(These(a)))
  {
    assert MissesSome(a + b);
    var x :| x !in a + b;
    assert x in Denotes(Except(b)) && x in Denotes(Whole) && x !in Denotes(These(a));
  }

  lemma SameDenotes<A(!new)>(a: set<A>, b: set<A>)
    ensures Denotes(These(a)) <= Denotes(These(b)) <==> a <= b
    ensures Denotes(Except(a)) <= Denotes(Except(b)) <==> b <= a
    ensures Denotes(These(a)) <= Denotes(Except(b)) <==> a !! b
  {
    if Denotes(These(a)) <= Denotes(These(b)) {
      forall x | x in a ensures x in b {
        assert x in Denotes(These(a));
      }
    }
    if Denotes(Except(a)) <= Denotes(Except(b)) {
      forall x | x in b ensures x in a {
        assert x !in Denotes(Except(b));
      }
    }
    if Denotes(These(a)) <= Denotes(Except(b)) {
      forall x | x in a ensures x !in b {
        assert x in Denotes(These(a));
      }
    }
  }

  /** Over an open universe, the comparison of descriptions is the comparison of the sets they describe. */
  lemma ComparesAsSets<A(!new)>(left: Restriction<A>, right: Restriction<A>)
    requires IsOpen<A>()
    ensures LatticeCmp(left, right) == Compare(Denotes(left), Denotes(right))
  {
    NormalizedDenotes(left);
    NormalizedDenotes(right);
    match (Normalized(left), Normalized(right))
    case (Whole, Whole) =>
    case (These(a), Whole) => FiniteIsNotCofinite(a, {});
    case (Except(a), Whole) => SameDenotes({}, a);
    case (Whole, These(b)) => FiniteIsNotCofinite(b, {});
    case (Whole, Except(b)) => SameDenotes({}, b);
    case (These(a), These(b)) => SameDenotes(a, b); SameDenotes(b, a);
    case (Except(a), Except(b)) => SameDenotes(a, b); SameDenotes(b, a);
    case (These(a), Except(b)) => SameDenotes(a, b); FiniteIsNotCofinite(a, b);
    case (Except(a), These(b)) => SameDenotes(b, a); FiniteIsNotCofinite(b, a);
  }

  /** Openness is exactly what that needs: where a finite set exhausts the universe, listing it compares as
      less than the whole although it is the whole. */
  lemma ComparesAsSetsIffOpen<A(!new)>()
    ensures IsOpen<A>() <==>
            forall left: Restriction<A>, right :: LatticeCmp(left, right) == Compare(Denotes(left), Denotes(right))
  {
    if IsOpen<A>() {
      forall left: Restriction<A>, right ensures LatticeCmp(left, right) == Compare(Denotes(left), Denotes(right)) {
        ComparesAsSets(left, right);
      }
    } else {
      var s: set<A> :| !MissesSome(s);
      assert LatticeCmp(These(s), Whole) == Less;
      assert Denotes(These(s)) == Denotes<A>(Whole);
    }
  }

  /** A description is at least a finite set exactly when it describes each of its elements, in any universe. */
  lemma GeFinite<A(!new)>(r: Restriction<A>, s: set<A>)
    ensures Ge(r, These(s)) <==> forall a :: a in s ==> a in Denotes(r)
  {
    NormalizedDenotes(r);
  }

  lemma GeIsInclusion<A(!new)>(left: Restriction<A>, right: Restriction<A>)
    requires IsOpen<A>()
    ensures Ge(left, right) <==> Denotes(right) <= Denotes(left)
  {
    ComparesAsSets(left, right);
  }

  /** The union of descriptions describes the union. */
  lemma UnionDenotes<A(!new)>(left: Restriction<A>, right: Restriction<A>)
    ensures Denotes(Union(left, right)) == Denotes(left) + Denotes(right)
  {
  }

  lemma UnionIsCommutative<A>(left: Restriction<A>, right: Restriction<A>)
    ensures Union(left, right) == Union(right, left)
  {
  }

  lemma UnionIsAssociative<A>(x: Restriction<A>, y: Restriction<A>, z: Restriction<A>)
    ensures Union(Union(x, y), z) == Union(x, Union(y, z))
  {
    if !x.Whole? && !y.Whole? && !z.Whole? {
      assert Union(Union(x, y), z).elems == Union(x, Union(y, z)).elems;
    }
  }

  /** Over an open universe the union is the least upper bound for `ge`. */
  lemma UnionIsLeastUpperBound<A(!new)>(x: Restriction<A>, y: Restriction<A>, bound: Restriction<A>)
    requires IsOpen<A>()
    ensures Ge(Union(x, y), x) && Ge(Union(x, y), y)
    ensures Ge(bound, x) && Ge(bound, y) <==> Ge(bound, Union(x, y))
  {
    UnionDenotes(x, y);
    GeIsInclusion(Union(x, y), x);
    GeIsInclusion(Union(x, y), y);
    GeIsInclusion(bound, x);
    GeIsInclusion(bound, y);
    GeIsInclusion(bound, Union(x, y));
  }
}
