/** The bounds that the models use are those of the source's integer types. */
module Widths {
  import BridgeSpec
  import Calendar
  import Erc20
  import Settlement
  import Vesting

  function Pow2(n: nat): nat {
    if n == 0 then 1 else 2 * Pow2(n - 1)
  }

  lemma {:induction false} Pow2Add(m: nat, n: nat)
    ensures Pow2(m + n) == Pow2(m) * Pow2(n)
  {
    if n > 0 {
      Pow2Add(m, n - 1);
      assert Pow2(m) * (2 * Pow2(n - 1)) == 2 * (Pow2(m) * Pow2(n - 1));
    }
  }

  lemma Pow2Double(n: nat, p: nat)
    requires Pow2(n) == p
    ensures Pow2(n + n) == p * p
  {
    Pow2Add(n, n);
  }

  lemma Powers()
    ensures Pow2(32) == 0x1_0000_0000 && Pow2(64) == 0x1_0000_0000_0000_0000
    ensures Pow2(128) == 0x1_0000_0000_0000_0000_0000_0000_0000_0000
  {
    assert Pow2(8) == 256;
    Pow2Double(8, 256);
    Pow2Double(16, 0x1_0000);
    Pow2Double(32, 0x1_0000_0000);
    Pow2Double(64, 0x1_0000_0000_0000_0000);
  }

  /** Block numbers and leg counts have 32 bits, timestamps 64 and balances 128. */
  lemma BoundsAreTypeBounds()
    ensures BridgeSpec.MAX_BLOCK + 1 == Settlement.U32 == Calendar.MAX_U32 + 1 == 2 * (Calendar.MAX_I32 + 1) == Pow2(32)
    ensures Vesting.MAX_TIMESTAMP + 1 == Calendar.MAX_U64 + 1 == 2 * (Calendar.MAX_I64 + 1) == Pow2(64)
    ensures BridgeSpec.MAX_BALANCE + 1 == Vesting.MAX_BALANCE + 1 == Erc20.MAX_BALANCE + 1 == Pow2(128)
  {
    Powers();
  }
}
