/** 32-bit unsigned words (`bv32`) read as numbers. The bit-level routines
  * of bit_tricks.h work on words; the layouts that use them count in
  * numbers. `ToNat` connects the two, and every lemma here is
  * proved one bit at a time. */
module Words {
  import opened Bits

  /** The lowest bit of a word, as a number. */
  function Low(z: bv32): nat {
    if z & 1 == 1 then 1 else 0
  }

  /** The unsigned value of a word. */
  function ToNat(z: bv32): nat
    decreases z
  {
    if z == 0 then 0 else Low(z) + 2 * ToNat(z >> 1)
  }

  lemma ToNatStep(z: bv32)
    ensures ToNat(z) == Low(z) + 2 * ToNat(z >> 1)
  {
    if z == 0 {
      assert z >> 1 == 0;
    }
  }

  lemma EvenHalfNonZero(w: bv32)
    requires w != 0 && w & 1 == 0
    ensures w >> 1 != 0 && w >> 1 < w
  {
  }

  lemma {:induction false} ToNatPositive(w: bv32)
    requires w != 0
    ensures ToNat(w) > 0
    decreases w
  {
    if w & 1 == 0 {
      EvenHalfNonZero(w);
      ToNatPositive(w >> 1);
    }
  }

  /** Halving a non-zero word lowers its value: the measure of every
    * induction over the bits of a word below. */
  lemma ToNatHalves(z: bv32)
    requires z != 0
    ensures ToNat(z >> 1) < ToNat(z)
  {
    ToNatStep(z);
    ToNatPositive(z);
  }

  lemma SameHalfSameLow(a: bv32, b: bv32)
    requires a >> 1 == b >> 1 && (a & 1 == 1 <==> b & 1 == 1)
    ensures a == b
  {
  }

  /** Different words have different values. */
  lemma {:induction false} ToNatInjective(a: bv32, b: bv32)
    requires ToNat(a) == ToNat(b)
    ensures a == b
    decreases ToNat(a)
  {
    if a == 0 {
      if b != 0 {
        ToNatPositive(b);
        assert false;
      }
    } else {
      InjectiveSplit(a, b);
      ToNatInjective(a >> 1, b >> 1);
      SameHalfSameLow(a, b);
    }
  }

  lemma InjectiveSplit(a: bv32, b: bv32)
    requires a != 0 && ToNat(a) == ToNat(b)
    ensures ToNat(a >> 1) == ToNat(b >> 1) && ToNat(a >> 1) < ToNat(a)
    ensures a & 1 == 1 <==> b & 1 == 1
  {
    ToNatStep(a);
    ToNatStep(b);
    ParityParts(Low(a), Low(b), ToNat(a >> 1), ToNat(b >> 1));
    ToNatHalves(a);
    LowBitsAgree(a, b);
  }

  lemma ParityParts(l1: nat, l2: nat, x: nat, y: nat)
    requires l1 <= 1 && l2 <= 1 && l1 + 2 * x == l2 + 2 * y
    ensures l1 == l2 && x == y
  {
  }

  lemma LowBitsAgree(a: bv32, b: bv32)
    requires Low(a) == Low(b)
    ensures a & 1 == 1 <==> b & 1 == 1
  {
  }

  lemma HalvesOrdered(a: bv32, b: bv32)
    requires a <= b
    ensures a >> 1 <= b >> 1
    ensures a >> 1 == b >> 1 ==> a & 1 <= b & 1
  {
  }

  lemma ZeroIsLeast(a: bv32)
    requires Below(a, 0)
    ensures a == 0
  {
  }

  lemma MonoSplit(a: bv32, b: bv32)
    requires Below(a, b) && b != 0
    ensures Below(a >> 1, b >> 1) && ToNat(b >> 1) < ToNat(b)
    ensures a >> 1 == b >> 1 ==> a & 1 <= b & 1
  {
    HalvesOrdered(a, b);
    ToNatHalves(b);
  }

  lemma MonoStep(a: bv32, b: bv32)
    requires ToNat(a >> 1) <= ToNat(b >> 1)
    requires a >> 1 == b >> 1 ==> a & 1 <= b & 1
    ensures ToNat(a) <= ToNat(b)
  {
    if a >> 1 == b >> 1 {
      MonoSameHalf(a, b);
    } else {
      if ToNat(a >> 1) == ToNat(b >> 1) {
        ToNatInjective(a >> 1, b >> 1);
      }
      MonoLowerHalf(a, b);
    }
  }

  lemma MonoSameHalf(a: bv32, b: bv32)
    requires a >> 1 == b >> 1 && a & 1 <= b & 1
    ensures ToNat(a) <= ToNat(b)
  {
    ToNatStep(a);
    ToNatStep(b);
    LowOrdered(a, b);
  }

  lemma MonoLowerHalf(a: bv32, b: bv32)
    requires ToNat(a >> 1) < ToNat(b >> 1)
    ensures ToNat(a) <= ToNat(b)
  {
    ToNatStep(a);
    ToNatStep(b);
    LowAtMostOne(a);
  }

  lemma LowAtMostOne(a: bv32)
    ensures Low(a) <= 1
  {
  }

  lemma LowOrdered(a: bv32, b: bv32)
    requires a & 1 <= b & 1
    ensures Low(a) <= Low(b)
  {
  }

  /** The unsigned order of words is the order of their values. */
  lemma {:induction false} ToNatMono(a: bv32, b: bv32)
    requires a <= b
    ensures ToNat(a) <= ToNat(b)
  {
    MonoBits(a, b);
  }

  predicate Below(a: bv32, b: bv32) {
    a <= b
  }

  lemma {:induction false} MonoBits(a: bv32, b: bv32)
    requires Below(a, b)
    ensures ToNat(a) <= ToNat(b)
    decreases ToNat(b)
  {
    if b == 0 {
      ZeroIsLeast(a);
    } else {
      MonoSplit(a, b);
      MonoBits(a >> 1, b >> 1);
      MonoStep(a, b);
    }
  }

  lemma ToNatStrictMono(a: bv32, b: bv32)
    requires a < b
    ensures ToNat(a) < ToNat(b)
  {
    StrictIsLessOrEqual(a, b);
    ToNatMono(a, b);
    if ToNat(a) == ToNat(b) {
      ToNatInjective(a, b);
      assert false;
    }
  }

  lemma StrictIsLessOrEqual(a: bv32, b: bv32)
    requires a < b
    ensures a <= b && a != b
  {
  }

  /** The all-ones word is 2^32 - 1, one halving at a time. */
  lemma ToNatOnes8()
    ensures ToNat(0xFF) == 0xFF
  {
    ToNatStep(0xFF);
    ToNatStep(0x7F);
    ToNatStep(0x3F);
    ToNatStep(0x1F);
    ToNatStep(0xF);
    ToNatStep(0x7);
    ToNatStep(0x3);
    ToNatStep(0x1);
  }

  lemma ToNatOnes16()
    ensures ToNat(0xFFFF) == 0xFFFF
  {
    ToNatOnes8();
    ToNatStep(0xFFFF);
    ToNatStep(0x7FFF);
    ToNatStep(0x3FFF);
    ToNatStep(0x1FFF);
    ToNatStep(0xFFF);
    ToNatStep(0x7FF);
    ToNatStep(0x3FF);
    ToNatStep(0x1FF);
  }

  lemma ToNatOnes24()
    ensures ToNat(0xFFFFFF) == 0xFFFFFF
  {
    ToNatOnes16();
    ToNatStep(0xFFFFFF);
    ToNatStep(0x7FFFFF);
    ToNatStep(0x3FFFFF);
    ToNatStep(0x1FFFFF);
    ToNatStep(0xFFFFF);
    ToNatStep(0x7FFFF);
    ToNatStep(0x3FFFF);
    ToNatStep(0x1FFFF);
  }

  lemma ToNatMax()
    ensures ToNat(0xFFFFFFFF) == 0xFFFFFFFF
  {
    ToNatOnes24();
    ToNatStep(0xFFFFFFFF);
    ToNatStep(0x7FFFFFFF);
    ToNatStep(0x3FFFFFFF);
    ToNatStep(0x1FFFFFFF);
    ToNatStep(0xFFFFFFF);
    ToNatStep(0x7FFFFFF);
    ToNatStep(0x3FFFFFF);
    ToNatStep(0x1FFFFFF);
  }

  lemma AtMostAllOnes(a: bv32)
    ensures Below(a, 0xFFFF_FFFF)
  {
  }

  /** Every word is below 2^32. */
  lemma ToNatBelow(z: bv32)
    ensures ToNat(z) < U32_LIMIT
  {
    ToNatMax();
    AtMostAllOnes(z);
    MonoBits(z, 0xFFFF_FFFF);
  }

  lemma ToNat16()
    ensures ToNat(0x1_0000) == 0x1_0000
  {
    ToNatStep(0x10000);
    ToNatStep(0x8000);
    ToNatStep(0x4000);
    ToNatStep(0x2000);
    ToNatStep(0x1000);
    ToNatStep(0x800);
    ToNatStep(0x400);
    ToNatStep(0x200);
    ToNatStep(0x100);
    ToNatStep(0x80);
    ToNatStep(0x40);
    ToNatStep(0x20);
    ToNatStep(0x10);
    ToNatStep(0x8);
    ToNatStep(0x4);
    ToNatStep(0x2);
  }

  /** Shifting right by one halves the value; the low bit is its parity. */
  lemma ToNatShift(z: bv32)
    ensures ToNat(z >> 1) == ToNat(z) / 2 && Low(z) == ToNat(z) % 2
  {
    ToNatStep(z);
  }
}
