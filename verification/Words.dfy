/** Machine words. Unsigned 256-bit arithmetic of the contract wraps around. */
module Words {

  const MOD256: nat := 0x1_0000_0000_0000_0000_0000_0000_0000_0000_0000_0000_0000_0000_0000_0000_0000_0000

  type U256 = n: nat | n < MOD256
  type U64 = n: nat | n < 0x1_0000_0000_0000_0000
  type I32 = n: int | -0x8000_0000 <= n < 0x8000_0000

  function Wrap(n: int): U256
  {
    n % MOD256
  }

  lemma WrapSmall(n: U256)
    ensures Wrap(n) == n
  {
  }

  lemma WrapExact(n: nat)
    ensures Wrap(n) == n <==> n < MOD256
  {
  }

  lemma WrapShift(n: int, k: int)
    ensures Wrap(n - MOD256 * k) == Wrap(n)
  {
  }

  /** Wrapping early or late makes no difference to a sum. */
  lemma WrapSum(a: int, b: int)
    ensures Wrap(Wrap(a) + b) == Wrap(a + b)
    ensures Wrap(Wrap(a) - b) == Wrap(a - b)
  {
    var k := a / MOD256;
    assert Wrap(a) == a - MOD256 * k;
    hide Wrap;
    WrapShift(a + b, k);
    WrapShift(a - b, k);
    assert Wrap(a) + b == a + b - MOD256 * k && Wrap(a) - b == a - b - MOD256 * k;
  }
}
