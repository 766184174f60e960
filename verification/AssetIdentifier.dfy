/** The identifier validators with their loops, each against what the check digits are meant to say. */
module AssetIdentifier {
  import opened Wrappers

  newtype u128 = x: int | 0 <= x < 0x1_0000_0000_0000_0000_0000_0000_0000_0000

  predicate IsDigit(b: Byte) {
    48 <= b <= 57
  }

  predicate IsLetter(b: Byte) {
    65 <= b <= 90 || 97 <= b <= 122
  }

  predicate IsAlphanumeric(b: Byte) {
    IsDigit(b) || IsLetter(b)
  }

  /** The value of a character: letters follow the digits, whatever their case; `*`, `@`, `#` follow `Z`. */
  function ByteValue(b: Byte): (r: Option<nat>)
    ensures r.Some? ==> r.value < 39
    ensures IsDigit(b) ==> r.Some? && r.value < 10
    ensures IsLetter(b) ==> r.Some? && 10 <= r.value < 36
  {
    if b == 42 then Some(36)
    else if b == 64 then Some(37)
    else if b == 35 then Some(38)
    else if 48 <= b <= 57 then Some(b - 48)
    else if 65 <= b <= 90 then Some(b - 65 + 1 + 9)
    else if 97 <= b <= 122 then Some(b - 0x20 - 65 + 1 + 9)
    else None
  }

  /** The character of each value, in the order of the alphabet that the values count. */
  function Symbol(v: nat): Byte
    requires v < 39
  {
    if v < 10 then 48 + v
    else if v < 36 then 65 + (v - 10)
    else if v == 36 then 42
    else if v == 37 then 64
    else 35
  }

  function Upper(b: Byte): Byte {
    if 97 <= b <= 122 then b - 32 else b
  }

  /** Values and characters of either case translate into each other, and no other character has a value. */
  lemma ByteValueRoundTrip(b: Byte)
    ensures ByteValue(b).Some? ==> Symbol(ByteValue(b).value) == Upper(b)
    ensures forall v: nat :: v < 39 ==> (ByteValue(b) == Some(v) <==> Symbol(v) == Upper(b))
  {
  }

  // ----- the number that a string of characters spells -----

  predicate HasValues(s: seq<Byte>) {
    forall i :: 0 <= i < |s| ==> ByteValue(s[i]).Some?
  }

  /** A value of two decimal digits is written as two. */
  function DigitsOf(v: nat): seq<nat> {
    if v >= 10 then [v / 10, v % 10] else [v]
  }

  /** The string with every letter replaced by its decimal digits. */
  function Expand(s: seq<Byte>): seq<nat>
    requires HasValues(s)
  {
    if s == [] then [] else Expand(s[..|s| - 1]) + DigitsOf(ByteValue(s[|s| - 1]).value)
  }

  function Decimal(digits: seq<nat>): nat {
    if digits == [] then 0 else 10 * Decimal(digits[..|digits| - 1]) + digits[|digits| - 1]
  }

  function Pow10(n: nat): nat {
    if n == 0 then 1 else 10 * Pow10(n - 1)
  }

  lemma {:induction false} ExpandConcat(s: seq<Byte>, t: seq<Byte>)
    requires HasValues(s) && HasValues(t)
    ensures HasValues(s + t) && Expand(s + t) == Expand(s) + Expand(t)
  {
    if t == [] {
      assert s + t == s;
    } else {
      ExpandConcat(s, t[..|t| - 1]);
      assert (s + t)[..|s + t| - 1] == s + t[..|t| - 1];
    }
  }

  lemma ExpandOne(b: Byte)
    requires ByteValue(b).Some?
    ensures HasValues([b]) && Expand([b]) == DigitsOf(ByteValue(b).value)
  {
    assert [b][..0] == [];
    assert Expand([b]) == Expand([]) + DigitsOf(ByteValue(b).value);
  }

  lemma {:induction false} DecimalConcat(a: seq<nat>, b: seq<nat>)
    ensures Decimal(a + b) == Decimal(a) * Pow10(|b|) + Decimal(b)
  {
    if b == [] {
      assert a + b == a;
    } else {
      DecimalConcat(a, b[..|b| - 1]);
      assert (a + b)[..|a + b| - 1] == a + b[..|b| - 1];
      MulTen(Decimal(a), Pow10(|b| - 1));
    }
  }

  lemma MulTen(x: nat, p: nat)
    ensures 10 * (x * p) == x * (10 * p)
  {
  }

  lemma DecimalOfTwo(x: nat, y: nat)
    ensures Decimal([x]) == x && Decimal([x, y]) == 10 * x + y
  {
    assert [x][..0] == [];
    assert Decimal([x]) == 10 * Decimal([]) + x;
    assert [x, y][..1] == [x];
  }

  lemma DecimalOfValue(v: nat)
    requires v < 100
    ensures Decimal(DigitsOf(v)) == v
  {
    DecimalOfTwo(v / 10, v % 10);
    DecimalOfTwo(v, 0);
  }

  lemma Pow10Step(n: nat)
    ensures Pow10(n + 1) == 10 * Pow10(n) && Pow10(n + 2) == 100 * Pow10(n)
    ensures Pow10(1) == 10 && Pow10(2) == 100
  {
    assert Pow10(n + 2) == 10 * Pow10(n + 1);
  }

  /** Appending a character of value `v` to a number. */
  lemma DecimalAppend(digits: seq<nat>, v: nat)
    requires v < 100
    ensures Decimal(digits + DigitsOf(v)) == (if v >= 10 then 100 * Decimal(digits) else 10 * Decimal(digits)) + v
  {
    DecimalConcat(digits, DigitsOf(v));
    DecimalOfValue(v);
    Pow10Step(0);
  }

  /** A number of n digits is below 10^n, and a string of n characters has at most 2n digits. */
  lemma {:induction false} ExpandBounds(s: seq<Byte>)
    requires HasValues(s)
    ensures |s| <= |Expand(s)| <= 2 * |s| && Decimal(Expand(s)) < Pow10(|Expand(s)|)
  {
    if s != [] {
      var init, v := s[..|s| - 1], ByteValue(s[|s| - 1]).value;
      ExpandBounds(init);
      DecimalAppend(Expand(init), v);
      Pow10Step(|Expand(init)|);
    }
  }

  lemma {:induction false} Pow10Grows(m: nat, n: nat)
    requires m <= n
    ensures 1 <= Pow10(m) <= Pow10(n)
  {
    if m < n {
      Pow10Grows(m, n - 1);
    } else if m > 0 {
      Pow10Grows(m - 1, m - 1);
    }
  }

  // ----- LEI -----

  /** `10u128.wrapping_pow`. */
  function WrappingPow10(n: nat): u128 {
    (Pow10(n) % 0x1_0000_0000_0000_0000_0000_0000_0000_0000) as u128
  }

  lemma {:induction false} Pow10Add(m: nat, n: nat)
    ensures Pow10(m + n) == Pow10(m) * Pow10(n)
  {
    if n > 0 {
      Pow10Add(m, n - 1);
      MulTen(Pow10(m), Pow10(n - 1));
    }
  }

  lemma Pow10Double(n: nat, p: nat)
    requires Pow10(n) == p
    ensures Pow10(n + n) == p * p
  {
    Pow10Add(n, n);
  }

  lemma Pow10Of36()
    ensures Pow10(36) == 1_000_000_000_000_000_000_000_000_000_000_000_000
  {
    assert Pow10(9) == 1_000_000_000;
    Pow10Double(9, 1_000_000_000);
    Pow10Double(18, 1_000_000_000_000_000_000);
  }

  lemma Pow10Fits(n: nat)
    requires n <= 36
    ensures 1 <= Pow10(n) <= 1_000_000_000_000_000_000_000_000_000_000_000_000
  {
    Pow10Of36();
    Pow10Grows(n, 36);
  }

  lemma PowDoesNotWrap(n: nat)
    requires n <= 36
    ensures WrappingPow10(n) as int == Pow10(n)
  {
    Pow10Fits(n);
  }

  /** `sum += v * 10^i` on `u128`, where neither the product nor the sum overflows. */
  function AddAtPlace(sum: u128, v: nat, i: nat): (r: u128)
    requires i <= 36 && v < 39
    requires sum as int + v * Pow10(i) < 1_000_000_000_000_000_000_000_000_000_000_000_000
    ensures r as int == sum as int + v * Pow10(i)
  {
    PowDoesNotWrap(i);
    assert v * WrappingPow10(i) as int == v * Pow10(i);
    sum + v as u128 * WrappingPow10(i)
  }

  /** `98 - (sum * 100) % 97` on `u128`, where the product does not overflow. */
  function CheckPair(sum: u128): (r: nat)
    requires sum < 1_000_000_000_000_000_000_000_000_000_000_000_000
    ensures r == 98 - sum as int * 100 % 97
  {
    98 - (sum * 100 % 97) as int
  }

  /** Prepending a character adds its value at the place after the digits so far. */
  lemma ExpandPrepend(b: Byte, t: seq<Byte>)
    requires ByteValue(b).Some? && HasValues(t) && |t| < 18
    ensures HasValues([b] + t)
    ensures var v := ByteValue(b).value;
            && Decimal(Expand([b] + t)) == v * Pow10(|Expand(t)|) + Decimal(Expand(t))
            && |Expand([b] + t)| == |Expand(t)| + (if v > 9 then 2 else 1) <= 36
            && Decimal(Expand([b] + t)) < 1_000_000_000_000_000_000_000_000_000_000_000_000
  {
    ExpandConcat([b], t);
    ExpandOne(b);
    DecimalConcat(DigitsOf(ByteValue(b).value), Expand(t));
    DecimalOfValue(ByteValue(b).value);
    ExpandBounds([b] + t);
    ExpandBounds(t);
    Pow10Fits(|Expand([b] + t)|);
  }

  /** The same for the tail of a string, from `n + 1` to `n`. */
  lemma TailPrepend(s: seq<Byte>, n: nat)
    requires n < |s| <= 18 && ByteValue(s[n]).Some? && HasValues(s[n + 1..])
    ensures HasValues(s[n..])
    ensures var v, digits := ByteValue(s[n]).value, Expand(s[n + 1..]);
            && Decimal(Expand(s[n..])) == Decimal(digits) + v * Pow10(|digits|)
            && |Expand(s[n..])| == |digits| + (if v > 9 then 2 else 1) <= 36
            && Decimal(Expand(s[n..])) < 1_000_000_000_000_000_000_000_000_000_000_000_000
  {
    assert [s[n]] + s[n + 1..] == s[n..];
    ExpandPrepend(s[n], s[n + 1..]);
  }

  /** The checksum of the first 18 characters.  The `u128` arithmetic neither wraps nor overflows. */
  method LeiChecksum(s: seq<Byte>) returns (r: Option<nat>)
    requires |s| == 18
    ensures r.Some? <==> HasValues(s)
    ensures r.Some? ==> r.value == 98 - Decimal(Expand(s)) * 100 % 97
  {
    var i: nat := 0;
    var sum: u128 := 0;
    var n := |s|;
    while n > 0
      invariant 0 <= n <= |s| && HasValues(s[n..])
      invariant i == |Expand(s[n..])| && sum as int == Decimal(Expand(s[n..]))
      invariant sum < 1_000_000_000_000_000_000_000_000_000_000_000_000
    {
      n := n - 1;
      var value := ByteValue(s[n]);
      if value.None? {
        return None;
      }
      TailPrepend(s, n);
      var v := value.value;
      sum := AddAtPlace(sum, v, i);
      i := i + if v > 9 then 2 else 1;
    }
    assert s[0..] == s;
    return Some(CheckPair(sum));
  }

  /** What a valid LEI is, by its characters: 18 letters or digits and then two digits. */
  predicate LeiForm(s: seq<Byte>) {
    |s| == 20 && (forall i :: 0 <= i < 18 ==> IsAlphanumeric(s[i])) && IsDigit(s[18]) && IsDigit(s[19])
  }

  /** ISO/IEC 7064 MOD 97-10: the number the whole string spells leaves 1, and the check pair is one that
      the generation procedure produces. */
  predicate LeiValid(s: seq<Byte>) {
    LeiForm(s) && Decimal(Expand(s)) % 97 == 1 && 2 <= (s[18] - 48) * 10 + (s[19] - 48) <= 98
  }

  lemma LeiFormHasValues(s: seq<Byte>)
    requires LeiForm(s)
    ensures HasValues(s)
  {
    forall i | 0 <= i < 20 ensures ByteValue(s[i]).Some? {
      assert IsAlphanumeric(s[i]);
    }
  }

  lemma DigitAppends(s: seq<Byte>, b: Byte)
    requires HasValues(s) && IsDigit(b)
    ensures HasValues(s + [b]) && Decimal(Expand(s + [b])) == 10 * Decimal(Expand(s)) + (b - 48)
  {
    var v := ByteValue(b).value;
    assert v == b - 48;
    assert HasValues(s + [b]) && Expand(s + [b]) == Expand(s) + DigitsOf(v) by {
      ExpandOne(b);
      ExpandConcat(s, [b]);
    }
    DecimalAppend(Expand(s), v);
  }

  lemma CheckPairAppends(s: seq<Byte>)
    requires LeiForm(s)
    ensures HasValues(s) && HasValues(s[..18])
    ensures Decimal(Expand(s)) == Decimal(Expand(s[..18])) * 100 + (s[18] - 48) * 10 + (s[19] - 48)
  {
    LeiFormHasValues(s);
    assert s[..18] + [s[18]] == s[..19] && s[..19] + [s[19]] == s;
    TwoDigitsAppend(s[..18], s[18], s[19]);
  }

  lemma TwoDigitsAppend(s: seq<Byte>, a: Byte, b: Byte)
    requires HasValues(s) && IsDigit(a) && IsDigit(b)
    ensures HasValues(s + [a] + [b])
    ensures Decimal(Expand(s + [a] + [b])) == Decimal(Expand(s)) * 100 + (a - 48) * 10 + (b - 48)
  {
    DigitAppends(s, a);
    DigitAppends(s + [a], b);
  }

  /** 98 minus the remainder is the one pair that completes the number to 1 modulo 97. */
  lemma CheckPairIsComplement(n: nat, pair: nat)
    requires pair < 100
    ensures pair == 98 - n * 100 % 97 <==> (n * 100 + pair) % 97 == 1 && 2 <= pair <= 98
  {
    var q, r := n * 100 / 97, n * 100 % 97;
    assert n * 100 == 97 * q + r;
    assert (n * 100 + pair) % 97 == (r + pair) % 97;
  }

  method ValidateLei(s: seq<Byte>) returns (ok: bool)
    requires |s| == 20
    ensures ok <==> LeiValid(s)
  {
    for i := 0 to 18
      invariant forall j :: 0 <= j < i ==> IsAlphanumeric(s[j])
    {
      if !IsAlphanumeric(s[i]) {
        return false;
      }
    }
    if !IsDigit(s[18]) || !IsDigit(s[19]) {
      return false;
    }
    var inputCheck := (s[18] - 48) * 10 + (s[19] - 48);
    var checksum := LeiChecksum(s[..18]);
    ok := checksum == Some(inputCheck);
    CheckPairAppends(s);
    CheckPairIsComplement(Decimal(Expand(s[..18])), inputCheck);
  }

  // ----- ISIN -----

  /** The digit sum of twice a digit. */
  function Doubled(d: nat): nat {
    2 * d / 10 + 2 * d % 10
  }

  /** A digit counts as it is in even places from the right and doubled in odd ones. */
  function Weighted(place: nat, d: nat): nat {
    if place % 2 == 0 then d else Doubled(d)
  }

  /** The Luhn sum of digits that have `shift` more digits to their right. */
  function LuhnSum(digits: seq<nat>, shift: nat): nat {
    if digits == [] then 0
    else Weighted(shift + |digits| - 1, digits[0]) + LuhnSum(digits[1..], shift)
  }

  /** A country code of two letters, nine letters or digits, and a check digit. */
  predicate IsinForm(s: seq<Byte>) {
    |s| == 12 && IsLetter(s[0]) && IsLetter(s[1]) && (forall i :: 2 <= i < 11 ==> IsAlphanumeric(s[i])) && IsDigit(s[11])
  }

  /** The Luhn test on the expanded digits. */
  predicate IsinValid(s: seq<Byte>) {
    IsinForm(s) && LuhnSum(Expand(s), 0) % 10 == 0
  }

  lemma {:induction false} ExpandDigits(s: seq<Byte>)
    requires HasValues(s)
    ensures forall i :: 0 <= i < |Expand(s)| ==> Expand(s)[i] < 10
  {
    if s != [] {
      ExpandDigits(s[..|s| - 1]);
    }
  }

  lemma LuhnPrepend(digits: seq<nat>, n: nat)
    requires n < |digits| && digits[n] < 10
    ensures var d, place := digits[n], |digits| - 1 - n;
            LuhnSum(digits[n..], 0) == LuhnSum(digits[n + 1..], 0)
                                       + if place % 2 == 0 then d else if d >= 5 then 2 * d - 9 else 2 * d
  {
    assert digits[n..][1..] == digits[n + 1..];
  }

  /** The test on digits, right to left, with the source's shortcut for doubling. */
  method LuhnTest(digits: seq<nat>) returns (ok: bool)
    requires forall i :: 0 <= i < |digits| ==> digits[i] < 10
    ensures ok <==> LuhnSum(digits, 0) % 10 == 0
  {
    var s1, s2 := 0, 0;
    for index := 0 to |digits|
      invariant s1 + s2 == LuhnSum(digits[|digits| - index..], 0)
    {
      var digit := digits[|digits| - 1 - index];
      LuhnPrepend(digits, |digits| - 1 - index);
      if index % 2 == 0 {
        s1 := s1 + digit;
      } else {
        s2 := s2 + 2 * digit;
        if digit >= 5 {
          s2 := s2 - 9;
        }
      }
    }
    assert digits[0..] == digits;
    return (s1 + s2) % 10 == 0;
  }

  method ValidateIsin(s: seq<Byte>) returns (ok: bool)
    requires |s| == 12
    ensures ok <==> IsinValid(s)
  {
    if !IsLetter(s[0]) || !IsLetter(s[1]) || !IsDigit(s[11]) {
      return false;
    }
    for i := 2 to 11
      invariant forall j :: 2 <= j < i ==> IsAlphanumeric(s[j])
    {
      if !IsAlphanumeric(s[i]) {
        return false;
      }
    }
    var digits: seq<nat> := [];
    for i := 0 to 12
      invariant HasValues(s[..i]) && digits == Expand(s[..i])
    {
      assert s[..i + 1][..i] == s[..i];
      var v := ByteValue(s[i]).value;
      if v >= 10 {
        digits := digits + [v / 10];
        digits := digits + [v % 10];
      } else {
        digits := digits + [v];
      }
    }
    assert s[..12] == s;
    ExpandDigits(s);
    ok := LuhnTest(digits);
  }
}
