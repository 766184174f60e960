/** The CUSIP and CINS validator, and what its check digit catches. */
module Cusip {
  import opened Wrappers
  import opened AssetIdentifier
  import opened CheckDigits

  /** The digit sum of a value, doubled in odd places from the left. */
  function CusipWeight(index: nat, v: nat): nat {
    var w := if index % 2 != 0 then 2 * v else v;
    w / 10 + w % 10
  }

  function CusipSum(s: seq<Byte>): nat
    requires HasValues(s)
  {
    if s == [] then 0 else CusipSum(s[..|s| - 1]) + CusipWeight(|s| - 1, ByteValue(s[|s| - 1]).value)
  }

  /** Eight characters with values, and the digit that completes their sum to a multiple of ten. */
  predicate CusipValid(s: seq<Byte>) {
    |s| == 9 && IsDigit(s[8]) && HasValues(s[..8]) && (CusipSum(s[..8]) + (s[8] - 48)) % 10 == 0
  }

  method CusipCheckDigit(s: seq<Byte>) returns (r: Option<nat>)
    ensures r.Some? <==> HasValues(s)
    ensures r.Some? ==> r.value < 10 && (CusipSum(s) + r.value) % 10 == 0
  {
    var sum := 0;
    for index := 0 to |s|
      invariant HasValues(s[..index]) && sum == CusipSum(s[..index])
    {
      assert s[..index + 1][..index] == s[..index];
      var value := ByteValue(s[index]);
      if value.None? {
        return None;
      }
      var v := value.value;
      if index % 2 != 0 {
        v := v * 2;
      }
      sum := sum + (v / 10 + v % 10);
    }
    assert s[..|s|] == s;
    TensComplement(sum, (10 - sum % 10) % 10);
    return Some((10 - sum % 10) % 10);
  }

  method ValidateCusip(s: seq<Byte>) returns (ok: bool)
    requires |s| == 9
    ensures ok <==> CusipValid(s)
  {
    if !IsDigit(s[8]) {
      return false;
    }
    var digit := CusipCheckDigit(s[..8]);
    if digit.None? {
      return false;
    }
    TensComplement(CusipSum(s[..8]), digit.value);
    TensComplement(CusipSum(s[..8]), s[8] - 48);
    return digit.value == s[8] - 48;
  }

  /** Replacing one character changes the sum by the difference of the two weights. */
  lemma {:induction false} ReplacedWeighs(s: seq<Byte>, k: nat, b: Byte)
    requires HasValues(s) && k < |s| && ByteValue(b).Some?
    ensures HasValues(s[k := b])
    ensures CusipSum(s[k := b]) + CusipWeight(k, ByteValue(s[k]).value) == CusipSum(s) + CusipWeight(k, ByteValue(b).value)
  {
    var n := |s| - 1;
    if k == n {
      assert s[k := b][..n] == s[..n];
    } else {
      ReplacedWeighs(s[..n], k, b);
      assert s[k := b][..n] == s[..n][k := b];
    }
  }

  lemma BalancedResidues(x: nat, y: nat, v: nat, w: nat, d: nat)
    requires x + v == y + w && (y + d) % 10 == 0
    ensures (x + d) % 10 == 0 <==> v % 10 == w % 10
  {
    ResidueShows(v, x + d, 0);
    ResidueShows(w, y + d, 0);
    assert v + (x + d) == w + (y + d);
  }

  /** A replaced character goes unnoticed exactly when the two weigh the same modulo ten: 1 for A, say. */
  lemma CusipCatchesSubstitution(s: seq<Byte>, k: nat, b: Byte)
    requires CusipValid(s) && k < 8 && ByteValue(b).Some?
    ensures CusipValid(s[k := b])
            <==> CusipWeight(k, ByteValue(s[k]).value) % 10 == CusipWeight(k, ByteValue(b).value) % 10
  {
    ReplacedWeighs(s[..8], k, b);
    assert s[k := b][..8] == s[..8][k := b];
    BalancedResidues(CusipSum(s[..8][k := b]), CusipSum(s[..8]),
                     CusipWeight(k, ByteValue(s[k]).value), CusipWeight(k, ByteValue(b).value), s[8] - 48);
  }

  /** The weight of a character is the digit sum of its value, doubled in every second place: the sum of the
      digits that spell it. */
  lemma WeightIsDigitSum(index: nat, v: nat)
    requires v < 50
    ensures var w := if index % 2 == 0 then v else 2 * v;
            && Decimal(DigitsOf(w)) == w
            && CusipWeight(index, v) == DigitsOf(w)[0] + if w < 10 then 0 else DigitsOf(w)[1]
  {
    DecimalOfValue(v);
    DecimalOfValue(2 * v);
  }

  lemma PrefixSum(s: seq<Byte>, k: nat)
    requires HasValues(s) && k < |s|
    ensures HasValues(s[..k]) && HasValues(s[..k + 1])
    ensures CusipSum(s[..k + 1]) == CusipSum(s[..k]) + CusipWeight(k, ByteValue(s[k]).value)
  {
    assert s[..k + 1][..k] == s[..k];
  }

  lemma SumOfFour(s: seq<Byte>, k: nat, v0: nat, v1: nat, v2: nat, v3: nat)
    requires HasValues(s) && k + 3 < |s|
    requires ByteValue(s[k]) == Some(v0) && ByteValue(s[k + 1]) == Some(v1)
    requires ByteValue(s[k + 2]) == Some(v2) && ByteValue(s[k + 3]) == Some(v3)
    ensures HasValues(s[..k]) && HasValues(s[..k + 4])
    ensures CusipSum(s[..k + 4]) == CusipSum(s[..k]) + CusipWeight(k, v0) + CusipWeight(k + 1, v1)
                                    + CusipWeight(k + 2, v2) + CusipWeight(k + 3, v3)
  {
    PrefixSum(s, k);
    PrefixSum(s, k + 1);
    PrefixSum(s, k + 2);
    PrefixSum(s, k + 3);
  }

  lemma KnownSum(s: seq<Byte>)
    requires |s| == 9 && HasValues(s)
    requires s[0] == 54 && s[1] == 56 && s[2] == 51 && s[3] == 56 && s[4] == 57 && s[5] == 88 && s[6] == 49 && s[7] == 48
    ensures HasValues(s[..8]) && CusipSum(s[..8]) == 45
  {
    SumOfFour(s, 0, 6, 8, 3, 8);
    FirstWeights();
    SumOfFour(s, 4, 9, 33, 1, 0);
    LastWeights();
  }

  lemma FirstWeights()
    ensures CusipWeight(0, 6) + CusipWeight(1, 8) + CusipWeight(2, 3) + CusipWeight(3, 8) == 6 + 7 + 3 + 7
  {
  }

  lemma LastWeights()
    ensures CusipWeight(4, 9) + CusipWeight(5, 33) + CusipWeight(6, 1) + CusipWeight(7, 0) == 9 + 12 + 1 + 0
  {
  }

  /** 68389X10 has the check digit 5 and no other. */
  lemma KnownCusip(s: seq<Byte>)
    requires |s| == 9 && s[0] == 54 && s[1] == 56 && s[2] == 51 && s[3] == 56
    requires s[4] == 57 && s[5] == 88 && s[6] == 49 && s[7] == 48
    ensures CusipValid(s) <==> s[8] == 53
  {
    if IsDigit(s[8]) {
      KnownSum(s);
      TensComplement(CusipSum(s[..8]), s[8] - 48);
    }
  }

  lemma DigitWeighs(index: nat, d: nat)
    requires d < 10
    ensures CusipWeight(index, d) == Weighted(index, d)
  {
  }

  /** One digit replaced by another is always caught, the check digit included. */
  lemma CusipCatchesDigit(s: seq<Byte>, k: nat, b: Byte)
    requires CusipValid(s) && k < 9 && IsDigit(s[k]) && IsDigit(b) && s[k] != b
    ensures !CusipValid(s[k := b])
  {
    if k < 8 {
      CusipCatchesSubstitution(s, k, b);
      DigitWeighs(k, s[k] - 48);
      DigitWeighs(k, b - 48);
      WeightsDiffer(k, s[k] - 48, b - 48);
    } else {
      assert s[k := b][..8] == s[..8];
      TensComplement(CusipSum(s[..8]), s[8] - 48);
      TensComplement(CusipSum(s[..8]), b - 48);
    }
  }
}
