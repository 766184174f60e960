/** What the check digits of an LEI and an ISIN catch. */
module CheckDigits {
  import opened Wrappers
  import opened Division
  import opened AssetIdentifier

  predicate SameClass(a: Byte, b: Byte) {
    (IsDigit(a) && IsDigit(b)) || (IsLetter(a) && IsLetter(b))
  }

  function ValueOf(b: Byte): nat
    requires IsAlphanumeric(b)
  {
    ByteValue(b).value
  }

  /** The string with the characters at `k` and `k + 1` exchanged. */
  function Transposed(s: seq<Byte>, k: nat): seq<Byte>
    requires k + 1 < |s|
  {
    s[k := s[k + 1]][k + 1 := s[k]]
  }

  /** A string around the character at `k`, and around the two from `k` on. */
  lemma Around(s: seq<Byte>, k: nat, b: Byte)
    requires k < |s|
    ensures s == s[..k] + [s[k]] + s[k + 1..] && s[k := b] == s[..k] + [b] + s[k + 1..]
  {
  }

  lemma AroundTwo(s: seq<Byte>, k: nat)
    requires k + 1 < |s|
    ensures s == s[..k] + [s[k], s[k + 1]] + s[k + 2..] && Transposed(s, k) == s[..k] + [s[k + 1], s[k]] + s[k + 2..]
  {
  }

  // ----- the number around one place -----

  lemma ExpandAround(pre: seq<Byte>, middle: seq<Byte>, post: seq<Byte>)
    requires HasValues(pre) && HasValues(middle) && HasValues(post)
    ensures HasValues(pre + middle + post)
    ensures Expand(pre + middle + post) == Expand(pre) + Expand(middle) + Expand(post)
  {
    ExpandConcat(pre, middle);
    ExpandConcat(pre + middle, post);
  }

  // ----- modulo 97 -----

  lemma TenIsInvertible(x: int)
    requires 10 * x % 97 == 0
    ensures x % 97 == 0
  {
    var q := 10 * x / 97;
    assert 10 * x == 97 * q;
    assert x == 97 * (68 * q - 7 * x);
    MultipleOf97(68 * q - 7 * x);
  }

  lemma MultipleOf97(q: int)
    ensures 97 * q % 97 == 0
  {
  }

  lemma {:induction false} PowerKeepsRemainder(delta: int, n: nat)
    requires delta % 97 != 0
    ensures delta * Pow10(n) % 97 != 0
  {
    if n > 0 {
      PowerKeepsRemainder(delta, n - 1);
      assert delta * Pow10(n) == 10 * (delta * Pow10(n - 1));
      if delta * Pow10(n) % 97 == 0 {
        TenIsInvertible(delta * Pow10(n - 1));
      }
    }
  }

  lemma RemaindersDiffer(x: int, y: int)
    requires (x - y) % 97 != 0
    ensures x % 97 != y % 97
  {
    if x % 97 == y % 97 {
      assert x - y == 97 * (x / 97 - y / 97);
      MultipleOf97(x / 97 - y / 97);
    }
  }

  lemma SmallIsNoMultiple(x: int)
    requires 0 < x < 97 || -97 < x < 0
    ensures x % 97 != 0
  {
  }

  lemma MulDifference(a: int, b: int, p: int)
    ensures a * p - b * p == (a - b) * p
  {
  }

  /** Numbers of equally many digits that differ only in `middle` differ by a power of ten as much. */
  lemma DecimalDifference(pre: seq<nat>, middle: seq<nat>, middle': seq<nat>, post: seq<nat>)
    requires |middle| == |middle'|
    ensures Decimal(pre + middle + post) - Decimal(pre + middle' + post)
            == (Decimal(middle) - Decimal(middle')) * Pow10(|post|)
  {
    var x: int, y: int, p: int := Decimal(pre + middle), Decimal(pre + middle'), Pow10(|post|);
    assert x - y == Decimal(middle) - Decimal(middle') by {
      DecimalConcat(pre, middle);
      DecimalConcat(pre, middle');
    }
    assert Decimal(pre + middle + post) - Decimal(pre + middle' + post) == x * p - y * p by {
      DecimalConcat(pre + middle, post);
      DecimalConcat(pre + middle', post);
    }
    MulDifference(x, y, p);
  }

  /** If that is no multiple of 97, they leave different remainders. */
  lemma ChangeShows(pre: seq<nat>, middle: seq<nat>, middle': seq<nat>, post: seq<nat>)
    requires |middle| == |middle'| && (Decimal(middle) - Decimal(middle')) % 97 != 0
    ensures Decimal(pre + middle + post) % 97 != Decimal(pre + middle' + post) % 97
  {
    DecimalDifference(pre, middle, middle', post);
    PowerKeepsRemainder(Decimal(middle) - Decimal(middle'), |post|);
    RemaindersDiffer(Decimal(pre + middle + post), Decimal(pre + middle' + post));
  }

  // ----- LEI -----

  lemma SubstitutionShows(pre: seq<Byte>, a: Byte, b: Byte, post: seq<Byte>)
    requires HasValues(pre) && HasValues(post) && SameClass(a, b) && ValueOf(a) != ValueOf(b)
    ensures HasValues(pre + [a] + post) && HasValues(pre + [b] + post)
    ensures Decimal(Expand(pre + [a] + post)) % 97 != Decimal(Expand(pre + [b] + post)) % 97
  {
    ExpandOne(a);
    ExpandOne(b);
    ExpandAround(pre, [a], post);
    ExpandAround(pre, [b], post);
    DecimalOfValue(ValueOf(a));
    DecimalOfValue(ValueOf(b));
    SmallIsNoMultiple(ValueOf(a) - ValueOf(b));
    ChangeShows(Expand(pre), Expand([a]), Expand([b]), Expand(post));
  }

  /** One character replaced by another of its class with a different value is always caught. */
  lemma LeiCatchesSubstitution(s: seq<Byte>, k: nat, b: Byte)
    requires LeiValid(s) && k < 20 && SameClass(s[k], b) && ValueOf(s[k]) != ValueOf(b)
    ensures !LeiValid(s[k := b])
  {
    LeiFormHasValues(s);
    SubstitutionShows(s[..k], s[k], b, s[k + 1..]);
    Around(s, k, b);
  }

  /** Two characters whose expansions read the same in either order: equal values, or B1, M2 and X3. */
  predicate Commute(v: nat, w: nat) {
    v == w || (1 <= w <= 3 && v == 11 * w) || (1 <= v <= 3 && w == 11 * v)
  }

  /** A letter and a digit: the numbers are congruent only for the three pairs that read the same. */
  lemma LetterDigitSwap(v: nat, w: nat)
    requires 10 <= v < 36 && w < 10 && !Commute(v, w)
    ensures (9 * v - 99 * w) % 97 != 0
  {
    var x: int, k: int := 9 * v - 2 * w, 0 - w;
    assert 9 * v - 99 * w == x + k * 97;
    DivAddMultiple(x, 97, k);
    assert x == 97 * (x / 97) + x % 97 && 0 <= x / 97 <= 3;
  }

  lemma SwapDelta(v: nat, w: nat, x: int)
    requires v < 36 && w < 36 && !Commute(v, w)
    requires x == v * (if w >= 10 then 100 else 10) + w - (w * (if v >= 10 then 100 else 10) + v)
    ensures x % 97 != 0
  {
    if v >= 10 && w >= 10 {
      assert x == 2 * (v - w) + 97 * (v - w);
      SmallIsNoMultiple(2 * (v - w));
      DivAddMultiple(2 * (v - w), 97, v - w);
    } else if v < 10 && w < 10 {
      SmallIsNoMultiple(9 * (v - w));
    } else if v >= 10 {
      LetterDigitSwap(v, w);
    } else {
      LetterDigitSwap(w, v);
      assert x == -(9 * w - 99 * v);
      NegatedIsNoMultiple(9 * w - 99 * v);
    }
  }

  lemma NegatedIsNoMultiple(x: int)
    requires x % 97 != 0
    ensures -x % 97 != 0
  {
  }

  lemma SwapShows(v: nat, w: nat)
    requires v < 36 && w < 36
    ensures |DigitsOf(v) + DigitsOf(w)| == |DigitsOf(w) + DigitsOf(v)|
    ensures !Commute(v, w) ==> (Decimal(DigitsOf(v) + DigitsOf(w)) - Decimal(DigitsOf(w) + DigitsOf(v))) % 97 != 0
  {
    DecimalConcat(DigitsOf(v), DigitsOf(w));
    DecimalConcat(DigitsOf(w), DigitsOf(v));
    DecimalOfValue(v);
    DecimalOfValue(w);
    assert Pow10(1) == 10 && Pow10(2) == 100;
    if !Commute(v, w) {
      SwapDelta(v, w, Decimal(DigitsOf(v) + DigitsOf(w)) - Decimal(DigitsOf(w) + DigitsOf(v)));
    }
  }

  lemma CommutingReadsTheSame(v: nat, w: nat)
    requires v < 36 && w < 36 && Commute(v, w)
    ensures DigitsOf(v) + DigitsOf(w) == DigitsOf(w) + DigitsOf(v)
  {
  }

  lemma ExpandPair(a: Byte, b: Byte)
    requires IsAlphanumeric(a) && IsAlphanumeric(b)
    ensures HasValues([a, b]) && Expand([a, b]) == DigitsOf(ValueOf(a)) + DigitsOf(ValueOf(b))
  {
    ExpandOne(a);
    ExpandOne(b);
    ExpandConcat([a], [b]);
    assert [a] + [b] == [a, b];
  }

  lemma TranspositionShows(pre: seq<Byte>, a: Byte, b: Byte, post: seq<Byte>)
    requires HasValues(pre) && HasValues(post) && IsAlphanumeric(a) && IsAlphanumeric(b)
    ensures HasValues(pre + [a, b] + post) && HasValues(pre + [b, a] + post)
    ensures var x, y := Decimal(Expand(pre + [a, b] + post)), Decimal(Expand(pre + [b, a] + post));
            if Commute(ValueOf(a), ValueOf(b)) then x == y else x % 97 != y % 97
  {
    assert HasValues(pre + [a, b] + post)
      && Expand(pre + [a, b] + post) == Expand(pre) + (DigitsOf(ValueOf(a)) + DigitsOf(ValueOf(b))) + Expand(post) by {
      ExpandPair(a, b);
      ExpandAround(pre, [a, b], post);
    }
    assert HasValues(pre + [b, a] + post)
      && Expand(pre + [b, a] + post) == Expand(pre) + (DigitsOf(ValueOf(b)) + DigitsOf(ValueOf(a))) + Expand(post) by {
      ExpandPair(b, a);
      ExpandAround(pre, [b, a], post);
    }
    if Commute(ValueOf(a), ValueOf(b)) {
      CommutingReadsTheSame(ValueOf(a), ValueOf(b));
    } else {
      SwapShows(ValueOf(a), ValueOf(b));
      ChangeShows(Expand(pre), DigitsOf(ValueOf(a)) + DigitsOf(ValueOf(b)), DigitsOf(ValueOf(b)) + DigitsOf(ValueOf(a)), Expand(post));
    }
  }

  lemma TransposedForm(s: seq<Byte>, k: nat)
    requires LeiForm(s) && k < 17
    ensures LeiForm(Transposed(s, k)) && Transposed(s, k)[18..] == s[18..]
  {
  }

  lemma EarlyTransposition(s: seq<Byte>, k: nat)
    requires LeiValid(s) && k < 17
    ensures LeiValid(Transposed(s, k)) <==> Commute(ValueOf(s[k]), ValueOf(s[k + 1]))
  {
    LeiFormHasValues(s);
    TransposedForm(s, k);
    TranspositionShows(s[..k], s[k], s[k + 1], s[k + 2..]);
    AroundTwo(s, k);
  }

  lemma DigitsDoNotCommute(v: nat, w: nat)
    requires v < 10 && w < 10 && v != w
    ensures !Commute(v, w)
  {
  }

  function Residue(s: seq<Byte>): nat
    requires HasValues(s)
  {
    Decimal(Expand(s)) % 97
  }

  lemma DigitPairShows(pre: seq<Byte>, a: Byte, b: Byte, post: seq<Byte>)
    requires HasValues(pre) && HasValues(post) && IsDigit(a) && IsDigit(b) && a != b
    ensures HasValues(pre + [a, b] + post) && HasValues(pre + [b, a] + post)
    ensures Residue(pre + [a, b] + post) != Residue(pre + [b, a] + post)
  {
    DigitsDoNotCommute(ValueOf(a), ValueOf(b));
    TranspositionShows(pre, a, b, post);
  }

  lemma DigitSwapShows(s: seq<Byte>, k: nat)
    requires HasValues(s) && k + 1 < |s| && IsDigit(s[k]) && IsDigit(s[k + 1]) && s[k] != s[k + 1]
    ensures HasValues(Transposed(s, k)) && Residue(Transposed(s, k)) != Residue(s)
  {
    AroundTwo(s, k);
    DigitPairShows(s[..k], s[k], s[k + 1], s[k + 2..]);
  }

  /** From the last character before the check pair on, a swap keeps the form only between digits. */
  lemma LateTransposition(s: seq<Byte>, k: nat)
    requires LeiValid(s) && 17 <= k < 19
    ensures LeiValid(Transposed(s, k)) <==> s[k] == s[k + 1]
  {
    if s[k] == s[k + 1] {
      assert Transposed(s, k) == s;
    } else if IsDigit(s[k]) {
      LeiFormHasValues(s);
      DigitSwapShows(s, k);
    } else {
      assert Transposed(s, k)[18] == s[k];
    }
  }

  /** Exchanging two neighbours goes unnoticed exactly when, before the check pair, their expansions read the
      same either way, and from there on, when they are equal. */
  lemma LeiCatchesTransposition(s: seq<Byte>, k: nat)
    requires LeiValid(s) && k < 19
    ensures LeiValid(Transposed(s, k))
            <==> if k < 17 then Commute(ValueOf(s[k]), ValueOf(s[k + 1])) else s[k] == s[k + 1]
  {
    if k < 17 {
      EarlyTransposition(s, k);
    } else {
      LateTransposition(s, k);
    }
  }

  // ----- the Luhn sum around one place -----

  lemma {:induction false} LuhnConcat(a: seq<nat>, b: seq<nat>, shift: nat)
    ensures LuhnSum(a + b, shift) == LuhnSum(a, shift + |b|) + LuhnSum(b, shift)
  {
    if a == [] {
      assert a + b == b;
    } else {
      LuhnConcat(a[1..], b, shift);
      assert (a + b)[1..] == a[1..] + b;
    }
  }

  lemma LuhnAround(pre: seq<nat>, middle: seq<nat>, post: seq<nat>)
    ensures LuhnSum(pre + middle + post, 0)
            == LuhnSum(pre, |middle| + |post|) + LuhnSum(middle, |post|) + LuhnSum(post, 0)
  {
    LuhnConcat(pre + middle, post, 0);
    LuhnConcat(pre, middle, |post|);
  }

  lemma LuhnOfTwo(x: nat, y: nat, shift: nat)
    ensures LuhnSum([x], shift) == Weighted(shift, x)
    ensures LuhnSum([x, y], shift) == Weighted(shift + 1, x) + Weighted(shift, y)
  {
    assert [x][1..] == [];
    assert [x, y][1..] == [y] && [y][1..] == [];
  }

  lemma DoubledByShortcut(d: nat)
    requires d < 10
    ensures Doubled(d) == if d >= 5 then 2 * d - 9 else 2 * d
  {
  }

  /** Different digits weigh differently modulo ten, doubled or not. */
  lemma WeightsDiffer(place: nat, x: nat, y: nat)
    requires x < 10 && y < 10 && x != y
    ensures Weighted(place, x) % 10 != Weighted(place, y) % 10
  {
    DoubledByShortcut(x);
    DoubledByShortcut(y);
    SmallResidues(Weighted(place, x), Weighted(place, y));
  }

  predicate LuhnBlind(x: nat, y: nat) {
    x == y || (x == 0 && y == 9) || (x == 9 && y == 0)
  }

  lemma SwapSums(x: nat, y: nat)
    requires x < 10 && y < 10
    ensures (Doubled(x) + y) % 10 == (Doubled(y) + x) % 10 <==> LuhnBlind(x, y)
  {
    DoubledByShortcut(x);
    DoubledByShortcut(y);
    SmallResidues(Doubled(x) + y, Doubled(y) + x);
  }

  /** The weight of two neighbours, the second in the given place. */
  function PairWeight(place: nat, x: nat, y: nat): nat {
    Weighted(place + 1, x) + Weighted(place, y)
  }

  lemma PairWeightByParity(place: nat, x: nat, y: nat)
    ensures PairWeight(place, x, y) == if place % 2 == 0 then Doubled(x) + y else x + Doubled(y)
  {
    assert (place + 1) % 2 == 1 - place % 2;
  }

  /** Exchanged neighbours weigh the same only if they are equal or 0 and 9. */
  lemma SwapWeighs(place: nat, x: nat, y: nat)
    requires x < 10 && y < 10
    ensures PairWeight(place, x, y) % 10 == PairWeight(place, y, x) % 10 <==> LuhnBlind(x, y)
  {
    PairWeightByParity(place, x, y);
    PairWeightByParity(place, y, x);
    SwapSums(x, y);
    SwapSums(y, x);
  }

  lemma SmallResidues(a: nat, b: nat)
    requires a < 20 && b < 20
    ensures a % 10 == b % 10 <==> a == b || a == b + 10 || b == a + 10
  {
  }

  lemma ResidueShows(rest: nat, x: nat, y: nat)
    ensures (rest + x) % 10 == (rest + y) % 10 <==> x % 10 == y % 10
  {
  }

  lemma LuhnSubstitution(pre: seq<nat>, x: nat, y: nat, post: seq<nat>)
    requires x < 10 && y < 10 && x != y
    ensures LuhnSum(pre + [x] + post, 0) % 10 != LuhnSum(pre + [y] + post, 0) % 10
  {
    LuhnAround(pre, [x], post);
    LuhnAround(pre, [y], post);
    LuhnOfTwo(x, 0, |post|);
    LuhnOfTwo(y, 0, |post|);
    WeightsDiffer(|post|, x, y);
    ResidueShows(LuhnSum(pre, 1 + |post|) + LuhnSum(post, 0), Weighted(|post|, x), Weighted(|post|, y));
  }

  lemma LuhnTransposition(pre: seq<nat>, x: nat, y: nat, post: seq<nat>)
    requires x < 10 && y < 10
    ensures LuhnSum(pre + [x, y] + post, 0) % 10 == LuhnSum(pre + [y, x] + post, 0) % 10 <==> LuhnBlind(x, y)
  {
    var n := |post|;
    var rest := LuhnSum(pre, 2 + n) + LuhnSum(post, 0);
    assert LuhnSum(pre + [x, y] + post, 0) == rest + PairWeight(n, x, y) by {
      LuhnAround(pre, [x, y], post);
      LuhnOfTwo(x, y, n);
    }
    assert LuhnSum(pre + [y, x] + post, 0) == rest + PairWeight(n, y, x) by {
      LuhnAround(pre, [y, x], post);
      LuhnOfTwo(y, x, n);
    }
    SwapWeighs(n, x, y);
    ResidueShows(rest, PairWeight(n, x, y), PairWeight(n, y, x));
  }

  lemma TensComplement(sum: nat, x: nat)
    requires x < 10
    ensures (sum + x) % 10 == 0 <==> x == (10 - sum % 10) % 10
  {
  }

  // ----- ISIN -----

  lemma ExpandDigit(b: Byte)
    requires IsDigit(b)
    ensures HasValues([b]) && Expand([b]) == [b - 48]
  {
    ExpandOne(b);
  }

  lemma IsinFormHasValues(s: seq<Byte>)
    requires IsinForm(s)
    ensures HasValues(s)
  {
    forall i | 0 <= i < 12 ensures ByteValue(s[i]).Some? {
      assert IsAlphanumeric(s[i]);
    }
  }

  lemma DigitSubstitutionShows(pre: seq<Byte>, a: Byte, b: Byte, post: seq<Byte>)
    requires HasValues(pre) && HasValues(post) && IsDigit(a) && IsDigit(b) && a != b
    ensures HasValues(pre + [a] + post) && HasValues(pre + [b] + post)
    ensures LuhnSum(Expand(pre + [a] + post), 0) % 10 != LuhnSum(Expand(pre + [b] + post), 0) % 10
  {
    ExpandDigit(a);
    ExpandDigit(b);
    ExpandAround(pre, [a], post);
    ExpandAround(pre, [b], post);
    LuhnSubstitution(Expand(pre), a - 48, b - 48, Expand(post));
  }

  /** Replacing one digit by a different digit is always caught. */
  lemma IsinCatchesSubstitution(s: seq<Byte>, k: nat, b: Byte)
    requires IsinValid(s) && k < 12 && IsDigit(s[k]) && IsDigit(b) && s[k] != b
    ensures !IsinValid(s[k := b])
  {
    IsinFormHasValues(s);
    DigitSubstitutionShows(s[..k], s[k], b, s[k + 1..]);
    Around(s, k, b);
  }

  lemma DigitTranspositionShows(pre: seq<Byte>, a: Byte, b: Byte, post: seq<Byte>)
    requires HasValues(pre) && HasValues(post) && IsDigit(a) && IsDigit(b)
    ensures HasValues(pre + [a, b] + post) && HasValues(pre + [b, a] + post)
    ensures LuhnSum(Expand(pre + [a, b] + post), 0) % 10 == LuhnSum(Expand(pre + [b, a] + post), 0) % 10
            <==> LuhnBlind(a - 48, b - 48)
  {
    ExpandPair(a, b);
    ExpandPair(b, a);
    ExpandAround(pre, [a, b], post);
    ExpandAround(pre, [b, a], post);
    assert Expand([a, b]) == [a - 48, b - 48] && Expand([b, a]) == [b - 48, a - 48];
    LuhnTransposition(Expand(pre), a - 48, b - 48, Expand(post));
  }

  /** Exchanging two adjacent digits is caught exactly when they differ and are not 0 and 9. */
  lemma IsinCatchesTransposition(s: seq<Byte>, k: nat)
    requires IsinValid(s) && k < 11 && IsDigit(s[k]) && IsDigit(s[k + 1])
    ensures IsinValid(Transposed(s, k)) <==> LuhnBlind(s[k] - 48, s[k + 1] - 48)
  {
    IsinFormHasValues(s);
    DigitTranspositionShows(s[..k], s[k], s[k + 1], s[k + 2..]);
    AroundTwo(s, k);
  }

  lemma LastDigitCounts(s: seq<Byte>, d: Byte)
    requires HasValues(s) && IsDigit(d)
    ensures HasValues(s + [d]) && LuhnSum(Expand(s + [d]), 0) == LuhnSum(Expand(s), 1) + (d - 48)
  {
    ExpandDigit(d);
    ExpandConcat(s, [d]);
    LuhnConcat(Expand(s), [d - 48], 0);
    LuhnOfTwo(d - 48, 0, 0);
  }

  /** Every well-formed prefix of eleven characters has exactly one check digit: 0 to 9 is valid if and
      only if it is the ten's complement of the prefix's weighted sum. */
  lemma IsinCheckDigitIsUnique(s: seq<Byte>, d: Byte)
    requires |s| == 11 && IsinForm(s + [d])
    ensures HasValues(s)
    ensures IsinValid(s + [d]) <==> d == 48 + (10 - LuhnSum(Expand(s), 1) % 10) % 10
  {
    IsinFormHasValues(s + [d]);
    assert (s + [d])[..11] == s;
    assert (s + [d])[11] == d;
    LastDigitCounts(s, d);
    TensComplement(LuhnSum(Expand(s), 1), d - 48);
  }
}
