/** Java's 32-bit `int`, which the page counter (`MutableInt`) holds. */
module JavaInt {

  const MIN: int := -0x8000_0000
  const MAX: int := 0x7fff_ffff
  const MODULUS: int := 0x1_0000_0000

  predicate InRange(x: int) {
    MIN <= x <= MAX
  }

  /** The value an `int` holds when an arithmetic result `x` is stored in it (two's-complement wrap-around). */
  function Wrap(x: int): (r: int)
    ensures InRange(r)
    ensures InRange(x) ==> r == x
  {
    (x - MIN) % MODULUS + MIN
  }

  /** Wrapping an intermediate sum does not change the wrapped total. */
  lemma WrapAbsorbs(a: int, b: int)
    ensures Wrap(Wrap(a) + b) == Wrap(a + b)
  {
    var q := (a - MIN) / MODULUS;
    assert a - MIN == q * MODULUS + (a - MIN) % MODULUS;
    assert Wrap(a) == a - q * MODULUS;
    ShiftMod(a + b - MIN, q);
  }

  lemma ShiftMod(x: int, q: int)
    ensures (x - q * MODULUS) % MODULUS == x % MODULUS
  {
    var r := x % MODULUS;
    var d := x / MODULUS;
    assert x == d * MODULUS + r && 0 <= r < MODULUS;
    assert x - q * MODULUS == (d - q) * MODULUS + r;
  }
}
