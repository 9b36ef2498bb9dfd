/** The fixed-width integer types of the C and C++ sources, as subsets of
    the unbounded integers, and the one arithmetic fact about Euclidean
    division that the byte and overflow proofs lean on. */
module Machine {

  /** uint8_t */
  type uint8 = x: int | 0 <= x < 0x100

  /** uint32_t, and C's unsigned int on the platforms libgcrypt targets */
  type uint32 = x: int | 0 <= x < 0x1_0000_0000

  /** C's int: 32-bit two's complement */
  type int32 = x: int | -0x8000_0000 <= x < 0x8000_0000

  /** size_t on a 64-bit platform */
  type size_t = x: int | 0 <= x < SIZE_MODULUS

  const INT_MAX: int := 0x7fff_ffff
  const SIZE_MODULUS: int := 0x1_0000_0000_0000_0000

  /** A quotient and remainder that satisfy the division equation are
      the quotient and remainder. */
  lemma DivModUnique(x: int, m: int, q: int, r: int)
    requires m > 0 && 0 <= r < m && x == q * m + r
    ensures x / m == q && x % m == r
  {
    var q', r' := x / m, x % m;
    assert x == q' * m + r';
    if q' > q {
      assert (q' - q) * m >= m by { MulAtLeast(q' - q, m); }
      assert false;
    } else if q' < q {
      assert (q - q') * m >= m by { MulAtLeast(q - q', m); }
      assert false;
    }
  }

  lemma MulAtLeast(k: int, m: int)
    requires k >= 1 && m > 0
    ensures k * m >= m
  {
  }
}
