/** math.h: integer rounding helpers, instantiated at `size_t` (64-bit
  * unsigned), so the intermediate sum wraps modulo 2^64 as in C. */
module MathUtil {
  import opened Bits

  /** `(x + y - 1) / y`; a zero divisor is undefined behaviour in C. */
  function DivUp(x: nat, y: nat): nat
    requires x < U64_LIMIT && 0 < y < U64_LIMIT
  {
    ((x + y - 1) % U64_LIMIT) / y
  }

  /** `(size + alignment - 1) & ~(alignment - 1)`. */
  function Align(size: nat, alignment: nat): nat
    requires size < U64_LIMIT && 0 < alignment < U64_LIMIT
  {
    assert Pow2(64) == U64_LIMIT by { Pow2Of64(); }
    BitAnd((size + alignment - 1) % U64_LIMIT, BitNot(alignment - 1, 64))
  }

  /** With a power-of-two alignment and no wrap-around, Align rounds up to a
    * multiple of the alignment, by less than one alignment step. */
  lemma AlignRoundsUp(size: nat, alignment: nat, k: nat)
    requires alignment == Pow2(k) && alignment < U64_LIMIT
    requires size + alignment - 1 < U64_LIMIT
    ensures Align(size, alignment) % alignment == 0
    ensures size <= Align(size, alignment) < size + alignment
  {
    var x := size + alignment - 1;
    DivModUnique(x, U64_LIMIT, 0, x);
    Pow2Of64();
    var r := Align(size, alignment);
    assert r == BitAnd(x, BitNot(alignment - 1, 64));
    AndNot(x, alignment - 1, 64);
    AndLowMask(x, k);
    assert BitAnd(x, alignment - 1) == x % alignment;
    RoundDownIsMultiple(x, alignment);
  }

  /** ... and it is the least such multiple. */
  lemma AlignIsLeast(size: nat, alignment: nat, k: nat, m: nat)
    requires alignment == Pow2(k) && alignment < U64_LIMIT
    requires size + alignment - 1 < U64_LIMIT
    requires m % alignment == 0 && m >= size
    ensures m >= Align(size, alignment)
  {
    AlignRoundsUp(size, alignment, k);
    var r := Align(size, alignment);
    if m < r {
      MultiplesApart(m, r, alignment);
      assert false;
    }
  }

  /** Aligning an aligned size changes nothing. */
  lemma AlignIdempotent(size: nat, alignment: nat, k: nat)
    requires alignment == Pow2(k) && alignment < U64_LIMIT
    requires size + 2 * alignment < U64_LIMIT
    ensures Align(Align(size, alignment), alignment) == Align(size, alignment)
  {
    AlignRoundsUp(size, alignment, k);
    var r := Align(size, alignment);
    AlignRoundsUp(r, alignment, k);
    AlignIsLeast(r, alignment, k, r);
  }

  /** Without wrap-around, DivUp(x, y) is the ceiling of x / y. */
  lemma DivUpIsCeiling(x: nat, y: nat)
    requires 0 < y < U64_LIMIT && x + y - 1 < U64_LIMIT
    ensures DivUp(x, y) * y >= x
    ensures x > 0 ==> (DivUp(x, y) - 1) * y < x
  {
    var s := x + y - 1;
    DivModUnique(s, U64_LIMIT, 0, s);
    var q := s / y;
    assert DivUp(x, y) == q;
    assert q * y == s - s % y;
    assert (q - 1) * y == q * y - y;
  }

  /** std::max on unsigned values. */
  function Max(a: nat, b: nat): nat
  {
    if a >= b then a else b
  }

  lemma MulLe(a: nat, b: nat, c: nat)
    requires a <= b
    ensures a * c <= b * c
  {
  }
}
