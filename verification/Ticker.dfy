/** Generated tickers: A, B, ..., Z, AA, AB, ... */
module Ticker {
  import opened Wrappers

  const TICKER_LEN := 12

  predicate IsCapital(b: Byte) {
    65 <= b <= 90
  }

  /** A non-empty string of the letters A to Z. */
  predicate IsName(s: seq<Byte>) {
    s != [] && forall i :: 0 <= i < |s| ==> IsCapital(s[i])
  }

  /** The position of a string among all strings of letters, shorter ones first: its value in base 26 with
      digits 1 to 26.  The empty string has rank zero. */
  function Rank(s: seq<Byte>): int {
    if s == [] then 0 else 26 * Rank(s[..|s| - 1]) + (s[|s| - 1] as int - 64)
  }

  /** The strings of fewer than `n` letters, which is the least rank of a string of `n` letters. */
  function Shorter(n: nat): nat {
    if n == 0 then 0 else 26 * Shorter(n - 1) + 1
  }

  lemma RankOfAppended(s: seq<Byte>, b: Byte)
    ensures Rank(s + [b]) == 26 * Rank(s) + (b as int - 64)
  {
    assert (s + [b])[..|s|] == s;
  }

  // ----- the code -----

  /** The recursion of `generate`: pushes the letters for `n` to the end of the buffer. */
  method CalcBase26(n: nat, buffer: seq<Byte>) returns (r: seq<Byte>)
    ensures buffer <= r && IsName(r[|buffer|..]) && Rank(r[|buffer|..]) == n + 1
  {
    r := buffer;
    if n >= 26 {
      r := CalcBase26(n / 26 - 1, r);
    }
    var character := n % 26 + 65;
    RankOfAppended(r[|buffer|..], character);
    assert (r + [character])[|buffer|..] == r[|buffer|..] + [character];
    r := r + [character];
  }

  /** The name numbered `n`. */
  method Generate(n: nat) returns (r: seq<Byte>)
    ensures IsName(r) && Rank(r) == n + 1
  {
    r := CalcBase26(n, []);
    assert r[0..] == r;
  }

  /** The first twelve bytes, padded with zeros. */
  function Padded(s: seq<Byte>): (t: seq<Byte>)
    ensures |t| == TICKER_LEN
  {
    if |s| >= TICKER_LEN then s[..TICKER_LEN] else s + seq(TICKER_LEN - |s|, _ => 0)
  }

  method FromSliceTruncated(s: seq<Byte>) returns (t: seq<Byte>)
    ensures t == Padded(s)
  {
    var inner := new Byte[TICKER_LEN](_ => 0);
    var len := if |s| >= TICKER_LEN then TICKER_LEN else |s|;
    for i := 0 to len
      invariant forall j :: 0 <= j < i ==> inner[j] == s[j]
      invariant forall j :: i <= j < TICKER_LEN ==> inner[j] == 0
    {
      inner[i] := s[i];
    }
    t := inner[..];
  }

  method GenerateInto(n: nat) returns (t: seq<Byte>)
    ensures t == Padded(Name(n))
  {
    var s := Generate(n);
    RankIsOrder(s, Name(n));
    t := FromSliceTruncated(s);
  }

  /** The length of the least prefix after which only zeros come. */
  method Len(t: seq<Byte>) returns (n: nat)
    requires |t| == TICKER_LEN
    ensures n <= TICKER_LEN && (n > 0 ==> t[n - 1] != 0) && forall i :: n <= i < TICKER_LEN ==> t[i] == 0
  {
    n := TICKER_LEN;
    while n > 0
      invariant 0 <= n <= TICKER_LEN && forall i :: n <= i < TICKER_LEN ==> t[i] == 0
    {
      if t[n - 1] != 0 {
        return n;
      }
      n := n - 1;
    }
  }

  // ----- names and numbers are in bijection -----

  /** A string's rank tells its length. */
  lemma {:induction false} RankBounds(s: seq<Byte>)
    requires s == [] || IsName(s)
    ensures Shorter(|s|) <= Rank(s) < Shorter(|s| + 1)
  {
    if s != [] {
      RankBounds(s[..|s| - 1]);
    }
  }

  lemma {:induction false} ShorterGrows(m: nat, n: nat)
    requires m <= n
    ensures Shorter(m) <= Shorter(n)
  {
    if m < n {
      ShorterGrows(m, n - 1);
    }
  }

  lemma RankTellsLength(s: seq<Byte>, n: nat)
    requires s == [] || IsName(s)
    ensures |s| < n <==> Rank(s) < Shorter(n)
  {
    RankBounds(s);
    if |s| < n {
      ShorterGrows(|s| + 1, n);
    } else {
      ShorterGrows(n, |s|);
    }
  }

  /** The names in order: shorter first, then at the first difference. */
  ghost predicate Precedes(s: seq<Byte>, t: seq<Byte>) {
    |s| < |t| || (|s| == |t| && DiffersBelow(s, t))
  }

  ghost predicate DiffersBelow(s: seq<Byte>, t: seq<Byte>)
    requires |s| == |t|
  {
    exists i :: 0 <= i < |s| && s[..i] == t[..i] && s[i] < t[i]
  }

  lemma {:induction false} DiffersBelowHasLowerRank(s: seq<Byte>, t: seq<Byte>)
    requires (s == [] || IsName(s)) && (t == [] || IsName(t)) && |s| == |t| && DiffersBelow(s, t)
    ensures Rank(s) < Rank(t)
  {
    var i :| 0 <= i < |s| && s[..i] == t[..i] && s[i] < t[i];
    var last := |s| - 1;
    if i < last {
      assert s[..last][..i] == s[..i] && t[..last][..i] == t[..i];
      assert DiffersBelow(s[..last], t[..last]);
      DiffersBelowHasLowerRank(s[..last], t[..last]);
    }
  }

  lemma {:induction false} DifferentNamesAreOrdered(s: seq<Byte>, t: seq<Byte>)
    requires |s| == |t| && s != t
    ensures DiffersBelow(s, t) || DiffersBelow(t, s)
  {
    var last := |s| - 1;
    if s[..last] == t[..last] {
      assert s == s[..last] + [s[last]] && t == t[..last] + [t[last]];
      assert s[last] != t[last];
    } else {
      DifferentNamesAreOrdered(s[..last], t[..last]);
      if DiffersBelow(s[..last], t[..last]) {
        LiftDifference(s, t);
      } else {
        LiftDifference(t, s);
      }
    }
  }

  lemma LiftDifference(s: seq<Byte>, t: seq<Byte>)
    requires |s| == |t| > 0 && DiffersBelow(s[..|s| - 1], t[..|t| - 1])
    ensures DiffersBelow(s, t)
  {
    var last := |s| - 1;
    var i :| 0 <= i < last && s[..last][..i] == t[..last][..i] && s[..last][i] < t[..last][i];
    assert s[..last][..i] == s[..i] && t[..last][..i] == t[..i];
  }

  /** Ranks order names exactly as length and alphabet do; in particular no two names share one. */
  lemma RankIsOrder(s: seq<Byte>, t: seq<Byte>)
    requires IsName(s) && IsName(t)
    ensures Rank(s) < Rank(t) <==> Precedes(s, t)
    ensures Rank(s) == Rank(t) <==> s == t
  {
    RankBounds(s);
    RankBounds(t);
    if |s| < |t| {
      ShorterGrows(|s| + 1, |t|);
    } else if |t| < |s| {
      ShorterGrows(|t| + 1, |s|);
    } else if s != t {
      DifferentNamesAreOrdered(s, t);
      if DiffersBelow(s, t) {
        DiffersBelowHasLowerRank(s, t);
      } else {
        DiffersBelowHasLowerRank(t, s);
      }
    }
    if |s| == |t| && DiffersBelow(s, t) {
      DiffersBelowHasLowerRank(s, t);
    }
  }

  /** The name numbered `n`, for statements about all of them. */
  function Name(n: nat): (s: seq<Byte>)
    ensures IsName(s) && Rank(s) == n + 1
  {
    var letter: Byte := n % 26 + 65;
    if n < 26 then
      RankOfAppended([], letter);
      assert [] + [letter] == [letter];
      [letter]
    else
      var prefix := Name(n / 26 - 1);
      RankOfAppended(prefix, letter);
      prefix + [letter]
  }

  /** Every name is generated, by exactly one number. */
  lemma NamesAreNumbered(s: seq<Byte>)
    requires IsName(s)
    ensures Rank(s) >= 1 && Name(Rank(s) - 1) == s
    ensures forall n: nat :: Name(n) == s ==> n == Rank(s) - 1
  {
    RankBounds(s);
    ShorterGrows(1, |s|);
    RankIsOrder(Name(Rank(s) - 1), s);
  }

  /** Numbers order names: A to Z, then AA. */
  lemma NamesIncrease(m: nat, n: nat)
    ensures m < n <==> Precedes(Name(m), Name(n))
  {
    RankIsOrder(Name(m), Name(n));
  }

  // ----- tickers have twelve bytes -----

  /** The number of names that fit a ticker: 26 + 26^2 + ... + 26^12. */
  const CAPACITY: nat := 99_246_114_928_149_462

  lemma CapacityIsShorterThan13()
    ensures Shorter(13) == CAPACITY + 1
  {
  }

  lemma FitsIffBelowCapacity(n: nat)
    ensures |Name(n)| <= TICKER_LEN <==> n < CAPACITY
  {
    CapacityIsShorterThan13();
    RankTellsLength(Name(n), 13);
  }

  lemma PaddedAt(s: seq<Byte>, i: nat)
    requires i < TICKER_LEN
    ensures Padded(s)[i] == if i < |s| then s[i] else 0
  {
  }

  /** A padded name that fits can be read back. */
  lemma PaddingIsReversible(s: seq<Byte>, t: seq<Byte>)
    requires IsName(s) && IsName(t) && |s| <= TICKER_LEN && |t| <= TICKER_LEN && Padded(s) == Padded(t)
    ensures s == t
  {
    if |s| != |t| {
      var i := if |s| < |t| then |s| else |t|;
      PaddedAt(s, i);
      PaddedAt(t, i);
    }
    assert forall i :: 0 <= i < |s| ==> s[i] == Padded(s)[i] && t[i] == Padded(t)[i];
  }

  /** A generated ticker differs from all earlier ones if and only if its number is below the capacity. */
  lemma TickerIsNewIffBelowCapacity(n: nat)
    ensures n < CAPACITY <==> forall m: nat :: m < n ==> Padded(Name(m)) != Padded(Name(n))
  {
    FitsIffBelowCapacity(n);
    if n < CAPACITY {
      forall m: nat | m < n ensures Padded(Name(m)) != Padded(Name(n)) {
        FitsIffBelowCapacity(m);
        if Padded(Name(m)) == Padded(Name(n)) {
          PaddingIsReversible(Name(m), Name(n));
        }
      }
    } else {
      var cut := Name(n)[..TICKER_LEN];
      NamesAreNumbered(cut);
      FitsIffBelowCapacity(Rank(cut) - 1);
      assert Padded(Name(Rank(cut) - 1)) == Padded(Name(n));
    }
  }
}
