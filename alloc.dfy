/** The overflow guard of libgcrypt's zeroing allocators `_gcry_calloc`,
    `_gcry_calloc_secure`, `_gcry_xcalloc` and `_gcry_xcalloc_secure`: the
    request for `n` elements of `m` bytes is refused when `n * m`, computed
    in `size_t`, has wrapped around. The allocation itself is a call into
    an allocator that is not part of this model; whether it succeeds is a
    parameter. */
module Alloc {

  import opened Machine

  /** `n * m` on `size_t`: the product modulo 2^64. */
  function MulWrap(n: size_t, m: size_t): size_t
  {
    (n * m) % SIZE_MODULUS
  }

  /** The guard `m && bytes / m != n`. */
  predicate GuardRejects(n: size_t, m: size_t)
  {
    m != 0 && MulWrap(n, m) / m != n
  }

  /** The guard rejects exactly the products that do not fit in `size_t`. */
  lemma GuardDetectsOverflow(n: size_t, m: size_t)
    ensures GuardRejects(n, m) <==> n * m >= SIZE_MODULUS
  {
    if n * m < SIZE_MODULUS {
      DivModUnique(n * m, SIZE_MODULUS, 0, n * m);
      if m != 0 {
        DivModUnique(n * m, m, n, 0);
      }
    } else {
      assert m != 0;
      var w := MulWrap(n, m);
      assert w < n * m;
      var q := w / m;
      DivModUnique(w, m, q, w % m);
      if q >= n {
        assert q * m >= n * m by { MulMonotone(n, q, m); }
        assert false;
      }
    }
  }

  lemma MulMonotone(a: nat, b: nat, m: nat)
    requires a <= b
    ensures a * m <= b * m
  {
  }

  /** What `_gcry_calloc` (and `_gcry_calloc_secure`) hand back: a block of
      zero bytes, or NULL. The guard sets `errno` to `ENOMEM`; a refusing
      allocator leaves `errno` as it set it, or `ENOMEM` if it set none. */
  datatype CallocResult = Zeroed(block: seq<uint8>) | NoMemory

  /** `_gcry_calloc`: refuses an overflowing request, otherwise asks the
      allocator for `n * m` bytes (`granted` says whether it obliged) and
      clears them. */
  function Calloc(n: size_t, m: size_t, granted: bool): (r: CallocResult)
    ensures r.NoMemory? <==> n * m >= SIZE_MODULUS || !granted
    ensures r.Zeroed? ==> |r.block| == n * m
    ensures r.Zeroed? ==> forall i :: 0 <= i < |r.block| ==> r.block[i] == 0
  {
    GuardDetectsOverflow(n, m);
    if GuardRejects(n, m) then NoMemory
    else if !granted then NoMemory
    else Zeroed(seq(MulWrap(n, m), _ => 0))
  }

  /** What `_gcry_xcalloc` (and `_gcry_xcalloc_secure`) do: return a block
      of zero bytes or end in `_gcry_fatal_error`. */
  datatype XcallocResult = XZeroed(block: seq<uint8>) | FatalError

  /** `_gcry_xcalloc`: an overflowing request is a fatal error; otherwise
      `_gcry_xmalloc` either returns memory (`granted`) or ends in a
      fatal error itself. */
  function Xcalloc(n: size_t, m: size_t, granted: bool): (r: XcallocResult)
    ensures r.FatalError? <==> n * m >= SIZE_MODULUS || !granted
    ensures r.XZeroed? ==> |r.block| == n * m
    ensures r.XZeroed? ==> forall i :: 0 <= i < |r.block| ==> r.block[i] == 0
  {
    GuardDetectsOverflow(n, m);
    if GuardRejects(n, m) then FatalError
    else if !granted then FatalError
    else XZeroed(seq(MulWrap(n, m), _ => 0))
  }
}
