/** Java's 32-bit two's-complement `int`, modelled on Dafny's unbounded `int`. */
module Int32 {
  const INT_MIN: int := -0x8000_0000
  const INT_MAX: int := 0x7fff_ffff
  const MODULUS: int := 0x1_0000_0000

  predicate IsInt32(x: int)
  {
    INT_MIN <= x <= INT_MAX
  }

  /** The value Java keeps of the mathematical result `x`: the unique `int`
      congruent to `x` modulo 2^32. */
  function Wrap32(x: int): (r: int)
    ensures IsInt32(r)
    ensures (x - r) % MODULUS == 0
    ensures IsInt32(x) ==> r == x
  {
    (x - INT_MIN) % MODULUS + INT_MIN
  }

  /** Wrapping is compatible with addition: it does not matter whether an
      intermediate result was wrapped. */
  lemma WrapAdd(x: int, y: int)
    ensures Wrap32(Wrap32(x) + y) == Wrap32(x + y)
  {
    var a := x - INT_MIN;
    var q := a / MODULUS;
    assert Wrap32(x) == a - q * MODULUS + INT_MIN;
    assert Wrap32(x) + y - INT_MIN == (x + y - INT_MIN) - q * MODULUS;
    ModShift(x + y - INT_MIN, q);
  }

  lemma ModShift(a: int, q: int)
    ensures (a - q * MODULUS) % MODULUS == a % MODULUS
  {
    var r := a % MODULUS;
    var d := a / MODULUS;
    assert a - q * MODULUS == (d - q) * MODULUS + r;
  }
}
