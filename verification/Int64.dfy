/** 64-bit two's complement integers. */
module Int64 {

  const MAX64: int := 0x7fff_ffff_ffff_ffff
  const TWO64: int := 0x1_0000_0000_0000_0000

  predicate Is64(n: int) {
    -MAX64 - 1 <= n <= MAX64
  }

  /** The value of an `int64` computation. */
  function Wrap(n: int): int {
    (n + MAX64 + 1) % TWO64 - MAX64 - 1
  }

  lemma WrapIs64(n: int)
    ensures Is64(Wrap(n))
    ensures Is64(n) ==> Wrap(n) == n
  {
  }

  /** Wrapping at every addition or once at the end gives the same value. */
  lemma WrapAdd(a: int, b: int)
    ensures Wrap(Wrap(a) + b) == Wrap(a + b)
  {
    var q := (a + MAX64 + 1) / TWO64;
    assert Wrap(a) == a - q * TWO64;
    assert (a + b + MAX64 + 1 - q * TWO64) % TWO64 == (a + b + MAX64 + 1) % TWO64;
  }
}
