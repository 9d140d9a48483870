/** bit_tricks.h: 32-bit unsigned bit manipulation, on `bv32`. */
module BitTricks {
  import opened Bits
  import opened Words

  /** Bit i of v, as 0 or 1. */
  function Bit(v: bv32, i: bv32): bv32
    requires i < 32
  {
    (v >> i) & 1
  }

  /** A word with exactly one bit set. */
  predicate OneBitSet(v: bv32) {
    v != 0 && v & (v - 1) == 0
  }

  /** nextPow2: smear the highest set bit of v - 1 downwards, then add one. */
  function NextPow2(v0: bv32): (r: bv32)
    ensures v0 <= 0x8000_0000 ==> OneBitSet(r) && r >= v0 && (r == 1 || r >> 1 < v0)
    ensures v0 > 0x8000_0000 ==> r == 0
  {
    var v := v0 + (if v0 == 0 then 1 else 0);
    var v := v - 1;
    var v := v | (v >> 1);
    var v := v | (v >> 2);
    var v := v | (v >> 4);
    var v := v | (v >> 8);
    var v := v | (v >> 16);
    v + 1
  }

  /** No power of two at least v0 is below NextPow2(v0). */
  lemma NextPow2IsLeast(v0: bv32, p: bv32)
    requires v0 <= 0x8000_0000 && OneBitSet(p) && p >= v0
    ensures NextPow2(v0) <= p
  {
    var r := NextPow2(v0);
    if r > p {
      PowersApart(r, p);
    }
  }

  /** A smaller power of two is at most half a larger one. */
  lemma PowersApart(r: bv32, p: bv32)
    requires OneBitSet(r) && OneBitSet(p) && p < r
    ensures p <= r >> 1
  {
  }

  /** isPow2 on a signed 32-bit integer, read through its two's-complement
    * bits: `x > 0 && !(x & (x - 1))`. */
  predicate IsPow2(x: bv32) {
    x != 0 && x < 0x8000_0000 && x & (x - 1) == 0
  }

  /** 2^k as a word. */
  function Shl1(k: bv32): bv32
    requires k < 32
  {
    1 << k
  }

  /** The position of the single set bit of a one-bit word. */
  function BitPosition(x: bv32): (k: bv32)
    requires OneBitSet(x)
    ensures k < 32 && x == Shl1(k)
  {
    (if x & 0xAAAA_AAAA != 0 then 1 else 0)
    | (if x & 0xCCCC_CCCC != 0 then 2 else 0)
    | (if x & 0xF0F0_F0F0 != 0 then 4 else 0)
    | (if x & 0xFF00_FF00 != 0 then 8 else 0)
    | (if x & 0xFFFF_0000 != 0 then 16 else 0)
  }

  /** isPow2 holds exactly of 2^k for k < 31. */
  lemma IsPow2Iff(x: bv32)
    ensures IsPow2(x) <==> exists k: bv32 :: k < 31 && x == Shl1(k)
  {
    if IsPow2(x) {
      var k := BitPosition(x);
      assert k < 31 && x == Shl1(k);
    }
    forall k: bv32 | k < 31 && x == Shl1(k) ensures IsPow2(x) {
    }
  }

  /** _bit_interleave_sw: spread the low 16 bits of x to the even positions
    * and those of y to the odd positions ("binary magic numbers"). */
  function Interleave(inX: bv32, inY: bv32): bv32
  {
    var x := (inX | (inX << 8)) & 0x00FF_00FF;
    var x := (x | (x << 4)) & 0x0F0F_0F0F;
    var x := (x | (x << 2)) & 0x3333_3333;
    var x := (x | (x << 1)) & 0x5555_5555;
    var y := (inY | (inY << 8)) & 0x00FF_00FF;
    var y := (y | (y << 4)) & 0x0F0F_0F0F;
    var y := (y | (y << 2)) & 0x3333_3333;
    var y := (y | (y << 1)) & 0x5555_5555;
    x | (y << 1)
  }

  /** morton1: gather the even bits of v into the low 16 bits. */
  function Morton1(v: bv32): bv32
  {
    var x := v & 0x5555_5555;
    var x := (x | (x >> 1)) & 0x3333_3333;
    var x := (x | (x >> 2)) & 0x0F0F_0F0F;
    var x := (x | (x >> 4)) & 0x00FF_00FF;
    (x | (x >> 8)) & 0x0000_FFFF
  }

  /** Of coordinates below 2^16, bit i of x lands on bit 2i of the code and
    * bit i of y on bit 2i + 1. */
  lemma InterleaveBits(x: bv32, y: bv32)
    requires x < 0x1_0000 && y < 0x1_0000
    ensures forall i: bv32 :: i < 16 ==>
      Bit(Interleave(x, y), 2 * i) == Bit(x, i) && Bit(Interleave(x, y), 2 * i + 1) == Bit(y, i)
  {
    forall i: bv32 | i < 16
      ensures Bit(Interleave(x, y), 2 * i) == Bit(x, i) && Bit(Interleave(x, y), 2 * i + 1) == Bit(y, i)
    {
      InterleaveEvenBit(x, y, i);
      InterleaveOddBit(x, y, i);
    }
  }

  lemma InterleaveEvenBit(x: bv32, y: bv32, i: bv32)
    requires x < 0x1_0000 && y < 0x1_0000 && i < 16
    ensures Bit(Interleave(x, y), 2 * i) == Bit(x, i)
  {
  }

  lemma InterleaveOddBit(x: bv32, y: bv32, i: bv32)
    requires x < 0x1_0000 && y < 0x1_0000 && i < 16
    ensures Bit(Interleave(x, y), 2 * i + 1) == Bit(y, i)
  {
  }

  /** morton1 keeps 16 bits: bit i of the result is bit 2i of v. */
  lemma Morton1Bits(v: bv32)
    ensures Morton1(v) < 0x1_0000
    ensures forall i: bv32 :: i < 16 ==> Bit(Morton1(v), i) == Bit(v, 2 * i)
  {
    forall i: bv32 | i < 16
      ensures Bit(Morton1(v), i) == Bit(v, 2 * i)
    {
      Morton1Bit(v, i);
    }
  }

  lemma Morton1Bit(v: bv32, i: bv32)
    requires i < 16
    ensures Bit(Morton1(v), i) == Bit(v, 2 * i)
  {
  }

  /** bit_deinterleave_sw: the even bits and the odd bits of a Morton code. */
  function BitDeinterleave(i: bv32): (bv32, bv32) {
    (Morton1(i), Morton1(i >> 1))
  }

  /** xy_to_morton_sw (and xy_to_morton, whose software path it is). */
  function XyToMorton(x: bv32, y: bv32): bv32 {
    Interleave(x, y)
  }

  /** morton_to_xy. */
  function MortonToXy(i: bv32): (bv32, bv32) {
    BitDeinterleave(i)
  }

  /** Decoding a Morton code gives back the coordinates it was built from. */
  lemma MortonRoundTrip(x: bv32, y: bv32)
    requires x < 0x1_0000 && y < 0x1_0000
    ensures MortonToXy(XyToMorton(x, y)) == (x, y)
  {
  }

  /** Every 32-bit word is the Morton code of its decoded coordinates. */
  lemma MortonRoundTripFromCode(i: bv32)
    ensures XyToMorton(MortonToXy(i).0, MortonToXy(i).1) == i
  {
  }

  /** ctz_slow: count trailing zero bits, 32 for a zero word. A non-zero
    * word's value is an odd number times 2^count. */
  method CtzSlow(n0: bv32) returns (count: nat)
    ensures n0 == 0 ==> count == 32
    ensures n0 != 0 ==> count < 32 && IsTrailingZeros(ToNat(n0), count)
  {
    if n0 == 0 {
      return 32;
    }
    count := 0;
    var n := n0;
    while n & 1 == 0
      invariant n != 0 && ToNat(n0) == ToNat(n) * Pow2(count)
      decreases ToNat(n)
    {
      CtzStep(n);
      MulRegroup(ToNat(n), ToNat(n >> 1), count);
      count := count + 1;
      n := n >> 1;
    }
    ToNatBelow(n0);
    CtzExit(n, ToNat(n0), count);
  }

  /** 2^count divides v and the quotient is odd. */
  predicate IsTrailingZeros(v: nat, count: nat) {
    v % Pow2(count) == 0 && (v / Pow2(count)) % 2 == 1
  }

  lemma CtzStep(n: bv32)
    requires n != 0 && n & 1 == 0
    ensures n >> 1 != 0 && ToNat(n) == 2 * ToNat(n >> 1) && ToNat(n >> 1) < ToNat(n)
  {
    ToNatStep(n);
    ToNatHalves(n);
  }

  lemma MulRegroup(x: nat, h: nat, c: nat)
    requires x == 2 * h
    ensures x * Pow2(c) == h * Pow2(c + 1)
  {
  }

  lemma CtzExit(n: bv32, v: nat, count: nat)
    requires n & 1 == 1 && v == ToNat(n) * Pow2(count) && v < U32_LIMIT
    ensures count < 32 && IsTrailingZeros(v, count)
  {
    ToNatShift(n);
    DivModUnique(v, Pow2(count), ToNat(n), 0);
    MulAtLeast(ToNat(n), Pow2(count));
    assert v >= Pow2(count);
    if count >= 32 {
      Pow2Grows(32, count);
      Pow2Of32();
      assert false;
    }
  }

  /** The trailing-zero count of a number is unique. */
  lemma {:induction false} TrailingZerosUnique(v: nat, c1: nat, c2: nat)
    requires IsTrailingZeros(v, c1) && IsTrailingZeros(v, c2)
    ensures c1 == c2
    decreases c1
  {
    if c1 > 0 && c2 > 0 {
      HalveTrailingZeros(v, c1);
      HalveTrailingZeros(v, c2);
      TrailingZerosUnique(v / 2, c1 - 1, c2 - 1);
    } else if c1 > 0 || c2 > 0 {
      var c := if c1 > 0 then c1 else c2;
      Pow2Mod(v, c);
      assert false;
    }
  }

  lemma HalveTrailingZeros(v: nat, c: nat)
    requires c > 0 && IsTrailingZeros(v, c)
    ensures IsTrailingZeros(v / 2, c - 1)
  {
    Pow2Mod(v, c);
    DivTwice(v, Pow2(c - 1));
  }

  lemma DivTwice(v: nat, p: nat)
    requires p > 0
    ensures v / (2 * p) == (v / 2) / p
  {
    var q := (v / 2) / p;
    var r := (v / 2) % p;
    assert v == 2 * p * q + (2 * r + v % 2);
    DivModUnique(v, 2 * p, q, 2 * r + v % 2);
  }

  /** The Morton (Z-order) index of a texel, on numbers: the low bit of x,
    * then the low bit of y, then the index of the halved coordinates. */
  function MortonIndex(x: nat, y: nat): nat
    decreases x + y
  {
    if x == 0 && y == 0 then 0 else x % 2 + 2 * (y % 2) + 4 * MortonIndex(x / 2, y / 2)
  }

  /** xy_to_morton computes the Morton index of coordinates below 2^16. */
  lemma {:induction false} XyToMortonIsMortonIndex(x: bv32, y: bv32)
    requires x < 0x1_0000 && y < 0x1_0000
    ensures ToNat(XyToMorton(x, y)) == MortonIndex(ToNat(x), ToNat(y))
    decreases ToNat(x) + ToNat(y)
  {
    if x == 0 && y == 0 {
      InterleaveZero();
    } else {
      InterleaveHalves(x, y);
      MortonMeasure(x, y);
      XyToMortonIsMortonIndex(x >> 1, y >> 1);
      MortonDigits(XyToMorton(x, y), x, y);
    }
  }

  lemma InterleaveZero()
    ensures ToNat(XyToMorton(0, 0)) == 0
  {
    assert XyToMorton(0, 0) == 0;
  }

  /** The lowest two bits of a Morton code are the low bits of x and y; the
    * rest is the code of the halved coordinates. */
  lemma InterleaveHalves(x: bv32, y: bv32)
    requires x < 0x1_0000 && y < 0x1_0000
    ensures x >> 1 < 0x1_0000 && y >> 1 < 0x1_0000
    ensures XyToMorton(x, y) & 1 == x & 1
    ensures (XyToMorton(x, y) >> 1) & 1 == y & 1
    ensures XyToMorton(x, y) >> 1 >> 1 == XyToMorton(x >> 1, y >> 1)
  {
  }

  lemma MortonMeasure(x: bv32, y: bv32)
    requires x != 0 || y != 0
    ensures ToNat(x >> 1) + ToNat(y >> 1) < ToNat(x) + ToNat(y)
  {
    ToNatShift(x);
    ToNatShift(y);
    if x != 0 {
      ToNatHalves(x);
    } else {
      ToNatHalves(y);
    }
  }

  lemma MortonDigits(z: bv32, x: bv32, y: bv32)
    requires z & 1 == x & 1 && (z >> 1) & 1 == y & 1
    requires x != 0 || y != 0
    requires ToNat(z >> 1 >> 1) == MortonIndex(ToNat(x >> 1), ToNat(y >> 1))
    ensures ToNat(z) == MortonIndex(ToNat(x), ToNat(y))
  {
    ToNatShift(z);
    ToNatShift(z >> 1);
    ToNatShift(x);
    ToNatShift(y);
    ToNatPositiveEither(x, y);
  }

  lemma ToNatPositiveEither(x: bv32, y: bv32)
    requires x != 0 || y != 0
    ensures ToNat(x) != 0 || ToNat(y) != 0
  {
    if x != 0 {
      ToNatPositive(x);
    } else {
      ToNatPositive(y);
    }
  }

  /** Coordinates below 2^k have a Morton index below 4^k: a 2^k by 2^k
    * square holds every index. */
  lemma {:induction false} MortonIndexBound(x: nat, y: nat, k: nat)
    requires x < Pow2(k) && y < Pow2(k)
    ensures MortonIndex(x, y) < Pow2(k) * Pow2(k)
  {
    if x == 0 && y == 0 {
    } else {
      assert k > 0;
      MortonIndexBound(x / 2, y / 2, k - 1);
      MortonBoundStep(MortonIndex(x / 2, y / 2), Pow2(k - 1), x % 2 + 2 * (y % 2));
    }
  }

  lemma MortonBoundStep(m: nat, p: nat, low: nat)
    requires m < p * p && low < 4
    ensures low + 4 * m < (2 * p) * (2 * p)
  {
    assert m + 1 <= p * p;
  }

  /** Different texels have different Morton indices. */
  lemma {:induction false} MortonIndexInjective(x1: nat, y1: nat, x2: nat, y2: nat)
    requires MortonIndex(x1, y1) == MortonIndex(x2, y2)
    ensures x1 == x2 && y1 == y2
    decreases x1 + y1 + x2 + y2
  {
    MortonDigitsOf(x1, y1);
    MortonDigitsOf(x2, y2);
    if x1 + y1 + x2 + y2 != 0 {
      MortonIndexInjective(x1 / 2, y1 / 2, x2 / 2, y2 / 2);
    }
  }

  /** The Morton index modulo 4 holds the two low bits; the quotient is the
    * index of the halved coordinates (also at the origin). */
  lemma MortonDigitsOf(x: nat, y: nat)
    ensures MortonIndex(x, y) % 4 == x % 2 + 2 * (y % 2)
    ensures MortonIndex(x, y) / 4 == MortonIndex(x / 2, y / 2)
  {
    DivModUnique(MortonIndex(x, y), 4, MortonIndex(x / 2, y / 2), x % 2 + 2 * (y % 2));
  }

  /** The number of halvings (rounding up) that bring n down to at most 1:
    * the exponent of the least power of two not below n. */
  function CeilLog2(n: nat): nat
    decreases n
  {
    if n <= 1 then 0 else 1 + CeilLog2((n + 1) / 2)
  }

  /** 2^CeilLog2(n) is at least n, and half of it is below n. */
  lemma {:induction false} CeilLog2Bounds(n: nat)
    ensures Pow2(CeilLog2(n)) >= n
    ensures CeilLog2(n) > 0 ==> Pow2(CeilLog2(n) - 1) < n
  {
    if n > 1 {
      CeilLog2Bounds((n + 1) / 2);
    }
  }

  /** Only one exponent has both properties. */
  lemma {:induction false} CeilLog2Unique(n: nat, k: nat)
    requires Pow2(k) >= n
    requires k > 0 ==> Pow2(k - 1) < n
    ensures k == CeilLog2(n)
  {
    if n <= 1 {
      if k > 0 {
        assert false;
      }
    } else {
      CeilLog2Unique((n + 1) / 2, k - 1);
    }
  }

  /** A word with one bit set is worth a power of two. */
  lemma {:induction false} OneBitValue(r: bv32) returns (j: nat)
    requires OneBitSet(r)
    ensures ToNat(r) == Pow2(j)
    decreases ToNat(r)
  {
    if r == 1 {
      ToNatStep(1);
      j := 0;
    } else {
      OneBitHalf(r);
      ToNatStep(r);
      ToNatHalves(r);
      var i := OneBitValue(r >> 1);
      j := i + 1;
    }
  }

  lemma OneBitHalf(r: bv32)
    requires OneBitSet(r) && r != 1
    ensures r & 1 == 0 && OneBitSet(r >> 1)
  {
  }

  /** nextPow2 of a word up to 2^31 is worth 2^CeilLog2 of its value. */
  lemma NextPow2Value(v: bv32)
    requires v <= 0x8000_0000
    ensures ToNat(NextPow2(v)) == Pow2(CeilLog2(ToNat(v)))
  {
    var r := NextPow2(v);
    var j := OneBitValue(r);
    NextPow2Shape(v);
    NextPow2Order(v, r);
    if ToNat(r) != 1 {
      assert j > 0;
    }
    CeilLog2Unique(ToNat(v), j);
  }

  lemma NextPow2Order(v: bv32, r: bv32)
    requires Below(v, r) && (r == 1 || (Below(r >> 1, v) && r >> 1 != v))
    ensures ToNat(v) <= ToNat(r)
    ensures ToNat(r) != 1 ==> ToNat(r) / 2 < ToNat(v)
  {
    MonoBits(v, r);
    if r != 1 {
      MonoBits(r >> 1, v);
      ToNatShift(r);
      if ToNat(r >> 1) == ToNat(v) {
        ToNatInjective(r >> 1, v);
        assert false;
      }
    } else {
      ToNatStep(1);
    }
  }

  lemma NextPow2Shape(v: bv32)
    requires v <= 0x8000_0000
    ensures Below(v, NextPow2(v))
    ensures NextPow2(v) == 1 || (Below(NextPow2(v) >> 1, v) && NextPow2(v) >> 1 != v)
  {
  }
}
