/** Triangle helpers (shared/shared/triangle.h): the vertex record with its
  * bounding box, vertex access, the half-float to single-float bit
  * conversion, strided texture-coordinate reads and the widening of index
  * triples to 32 bits. Coordinates are modelled as reals: the box only
  * compares them, which is exact in floating point. */
module Triangles {
  import opened Bits
  import opened Bytes
  import opened OmmTypes
  import opened Parse

  datatype Float2 = Float2(x: real, y: real)

  /** A triangle with its axis-aligned bounding box [aabbStart, aabbEnd]. */
  datatype Triangle = Triangle(p0: Float2, p1: Float2, p2: Float2, aabbStart: Float2, aabbEnd: Float2)

  /** std::min: the second argument only when it is smaller. */
  function StdMin(a: real, b: real): real
  {
    if b < a then b else a
  }

  /** std::max: the second argument only when the first is smaller. */
  function StdMax(a: real, b: real): real
  {
    if a < b then b else a
  }

  /** m is one of a, b, c and no greater than any of them. */
  predicate IsLeastOf(m: real, a: real, b: real, c: real)
  {
    m <= a && m <= b && m <= c && (m == a || m == b || m == c)
  }

  /** m is one of a, b, c and no smaller than any of them. */
  predicate IsGreatestOf(m: real, a: real, b: real, c: real)
  {
    m >= a && m >= b && m >= c && (m == a || m == b || m == c)
  }

  /** The constructor: the three vertices, and the box from the componentwise
    * minimum to the componentwise maximum of them. */
  function MakeTriangle(p0: Float2, p1: Float2, p2: Float2): (t: Triangle)
    ensures t.p0 == p0 && t.p1 == p1 && t.p2 == p2
    ensures IsLeastOf(t.aabbStart.x, p0.x, p1.x, p2.x) && IsLeastOf(t.aabbStart.y, p0.y, p1.y, p2.y)
    ensures IsGreatestOf(t.aabbEnd.x, p0.x, p1.x, p2.x) && IsGreatestOf(t.aabbEnd.y, p0.y, p1.y, p2.y)
  {
    Triangle(p0, p1, p2,
      Float2(StdMin(StdMin(p0.x, p1.x), p2.x), StdMin(StdMin(p0.y, p1.y), p2.y)),
      Float2(StdMax(StdMax(p0.x, p1.x), p2.x), StdMax(StdMax(p0.y, p1.y), p2.y)))
  }

  /** Vertex `index`; the source asserts that an index other than 0 or 1 is 2. */
  function GetP(t: Triangle, index: nat): (p: Float2)
    requires index <= 2
    ensures p == [t.p0, t.p1, t.p2][index]
  {
    if index == 0 then t.p0 else if index == 1 then t.p1 else t.p2
  }

  predicate InBox(t: Triangle, p: Float2)
  {
    t.aabbStart.x <= p.x <= t.aabbEnd.x && t.aabbStart.y <= p.y <= t.aabbEnd.y
  }

  /** Every vertex of a constructed triangle lies in its box. */
  lemma BoxHoldsVertices(p0: Float2, p1: Float2, p2: Float2, index: nat)
    requires index <= 2
    ensures InBox(MakeTriangle(p0, p1, p2), GetP(MakeTriangle(p0, p1, p2), index))
  {
  }

  /** The fields of an IEEE single-precision bit pattern. */
  function Float32Sign(bits: nat): nat { bits / 0x8000_0000 }
  function Float32Exponent(bits: nat): nat { (bits / 0x80_0000) % 0x100 }
  function Float32Mantissa(bits: nat): nat { bits % 0x80_0000 }

  /** The fields of an IEEE half-precision bit pattern. */
  function Float16Sign(h: nat): nat { h / 0x8000 }
  function Float16Exponent(h: nat): nat { (h / 0x400) % 0x20 }
  function Float16Mantissa(h: nat): nat { h % 0x400 }

  lemma HalfFloatPowers()
    ensures Pow2(5) == 0x20 && Pow2(10) == 0x400 && Pow2(13) == 0x2000 && Pow2(15) == 0x8000
    ensures Pow2(16) == 0x1_0000 && Pow2(23) == 0x80_0000 && Pow2(31) == 0x8000_0000
  {
    assert Pow2(8) == 0x100;
    assert Pow2(13) == 32 * Pow2(8);
    assert Pow2(16) == 8 * Pow2(13);
    assert Pow2(23) == 128 * Pow2(16) by {
      Pow2Add(16, 7);
    }
    assert Pow2(31) == 256 * Pow2(23) by {
      Pow2Add(23, 8);
    }
  }

  /** float16ToFloat32, on bit patterns: both zeros become +0; every other
    * half keeps its sign, rebiases its exponent from 15 to 127 and widens its
    * mantissa by 13 bits, with no special case for subnormals, infinities or
    * NaNs. */
  function Float16ToFloat32(h: nat): (bits: nat)
    requires h < 0x1_0000
    ensures bits < U32_LIMIT
    ensures h == 0 || h == 0x8000 ==> bits == 0
    ensures h != 0 && h != 0x8000 ==>
      Float32Sign(bits) == Float16Sign(h) &&
      Float32Exponent(bits) == Float16Exponent(h) - 15 + 127 &&
      Float32Mantissa(bits) == Float16Mantissa(h) * 0x2000
  {
    if h == 0x8000 || h == 0x0000 then
      0
    else
      var e := ShiftRight(BitAnd(h, 0x7c00), 10);
      var m := BitAnd(h, 0x03ff) * Pow2(13);
      HalfFields(h);
      var biased := e - 15 + 127;
      SingleLayout(Float16Sign(h), biased, Float16Mantissa(h));
      MulNat(biased, Pow2(23));
      BitOr(BitOr(biased * Pow2(23), m), BitAnd(h, 0x8000) * Pow2(16))
  }

  /** The masks of the conversion pick out the half's fields. */
  lemma HalfFields(h: nat)
    requires h < 0x1_0000
    ensures ShiftRight(BitAnd(h, 0x7c00), 10) == Float16Exponent(h) < 32
    ensures BitAnd(h, 0x03ff) * Pow2(13) == Float16Mantissa(h) * 0x2000
    ensures BitAnd(h, 0x8000) * Pow2(16) == Float16Sign(h) * 0x8000_0000
    ensures Float16Sign(h) < 2
  {
    HalfFloatPowers();
    ShiftRightIsDiv(BitAnd(h, 0x7c00), 10);
    AndShiftedMask(h, 5, 10);
    AndLowMask(h, 10);
    AndShiftedMask(h, 1, 15);
    DivModUnique(Float16Sign(h), 2, 0, Float16Sign(h));
  }

  /** Or-ing the three disjoint fields into place builds the single's
    * pattern, and its fields read back as placed. */
  lemma SingleLayout(s: nat, e: nat, mant: nat)
    requires s < 2 && 112 <= e < 144 && mant < 0x400
    ensures var bits := BitOr(BitOr(e * Pow2(23), mant * 0x2000), s * 0x8000_0000);
      bits < U32_LIMIT && Float32Sign(bits) == s && Float32Exponent(bits) == e &&
      Float32Mantissa(bits) == mant * 0x2000
  {
    HalfFloatPowers();
    var a := e * Pow2(23);
    var m := mant * 0x2000;
    MulDivides(a, Pow2(23), e);
    OrLowBits(a, m, 23);
    var sign := s * 0x8000_0000;
    MulDivides(sign, Pow2(31), s);
    OrLowBits(sign, a + m, 31);
    BitOrSymmetric(a + m, sign);
    var bits := sign + a + m;
    DivModUnique(bits, 0x80_0000, s * 0x100 + e, m);
    DivModUnique(s * 0x100 + e, 0x100, s, e);
    DivModUnique(bits, 0x8000_0000, s, a + m);
  }

  /** Half +infinity (0x7c00) becomes 65536.0 (0x47800000), a finite single. */
  lemma HalfInfinityIsFinite(h: nat)
    requires h == 0x7c00
    ensures Float16ToFloat32(h) == 0x4780_0000
  {
    assert Float16Exponent(h) == 31 && Float16Sign(h) == 0 && Float16Mantissa(h) == 0;
    SingleOfFields(Float16ToFloat32(h));
  }

  lemma SingleOfFields(bits: nat)
    requires Float32Sign(bits) == 0 && Float32Exponent(bits) == 0x8f && Float32Mantissa(bits) == 0
    ensures bits == 0x4780_0000
  {
    var q := bits / 0x80_0000;
    assert bits == q * 0x80_0000;
    assert q < 0x100;
    assert q == 0x8f;
  }

  /** getUvComponantStorage: the byte offset of component `component` of
    * vertex `index`, with the stride product taken in uint32. */
  function UvOffset(stride: nat, index: nat, component: nat, size: nat): nat
  {
    (stride * index) % U32_LIMIT + size * component
  }

  /** Component `component` (of `size` bytes) of texture coordinate `index`. */
  function GetUvComponentStorage(texCoords: seq<byte>, stride: nat, index: nat, component: nat, size: nat): (r: nat)
    requires UvOffset(stride, index, component, size) + size <= |texCoords|
    ensures r < Pow256(size)
  {
    ReadUnsigned(texCoords, UvOffset(stride, index, component, size), size)
  }

  /** `buf` with `bs` written at byte `at`. */
  function Overwrite(buf: seq<byte>, at: nat, bs: seq<byte>): (r: seq<byte>)
    requires at + |bs| <= |buf|
    ensures |r| == |buf|
  {
    buf[..at] + bs + buf[at + |bs|..]
  }

  /** A component written at its offset reads back unchanged. */
  lemma UvComponentReadBack(buf: seq<byte>, stride: nat, index: nat, component: nat, size: nat, value: nat)
    requires UvOffset(stride, index, component, size) + size <= |buf| && value < Pow256(size)
    ensures GetUvComponentStorage(Overwrite(buf, UvOffset(stride, index, component, size), EncodeLE(value, size)),
                                  stride, index, component, size) == value
  {
    var at := UvOffset(stride, index, component, size);
    var w := Overwrite(buf, at, EncodeLE(value, size));
    assert w[at..at + size] == EncodeLE(value, size);
    DecodeEncode(value, size);
  }

  /** A write to one component leaves a component that does not overlap it unchanged. */
  lemma UvComponentOthersKept(buf: seq<byte>, at: nat, bs: seq<byte>,
                              stride: nat, index: nat, component: nat, size: nat)
    requires at + |bs| <= |buf| && UvOffset(stride, index, component, size) + size <= |buf|
    requires UvOffset(stride, index, component, size) + size <= at || at + |bs| <= UvOffset(stride, index, component, size)
    ensures GetUvComponentStorage(Overwrite(buf, at, bs), stride, index, component, size)
         == GetUvComponentStorage(buf, stride, index, component, size)
  {
    var o := UvOffset(stride, index, component, size);
    assert Overwrite(buf, at, bs)[o..o + size] == buf[o..o + size];
  }

  /** Index k of an index buffer, zero-extended: 16 bits for I16_UINT, 32 bits otherwise. */
  function UnsignedIndexAt(indices: seq<byte>, f: IndexFormat, k: nat): (r: nat)
    requires (k + 1) * IndexEntryBytes(f) <= |indices|
    ensures r < Pow256(IndexEntryBytes(f))
  {
    ReadUnsigned(indices, IndexEntryBytes(f) * k, IndexEntryBytes(f))
  }

  /** The zero-extended read is the signed read of GetOmmIndexForTriangleIndex
    * reduced to the entry's width. */
  lemma UnsignedIsSignedPattern(res: BakeResultDesc, k: nat)
    requires IndexReadable(res, k)
    ensures (k + 1) * IndexEntryBytes(res.indexFormat) <= |res.indexBuffer|
    ensures UnsignedIndexAt(res.indexBuffer, res.indexFormat, k)
         == GetOmmIndexForTriangleIndex(res, k) % Pow256(IndexEntryBytes(res.indexFormat))
  {
  }

  /** An index buffer of unsigned entries in format f. */
  lemma UnsignedIndexRoundTrip(vals: seq<nat>, f: IndexFormat, k: nat)
    requires k < |vals| && vals[k] < Pow256(IndexEntryBytes(f))
    ensures (k + 1) * IndexEntryBytes(f) <= |EncodeAll(vals, IndexEntryBytes(f))|
    ensures UnsignedIndexAt(EncodeAll(vals, IndexEntryBytes(f)), f, k) == vals[k]
  {
    PackedEntry(vals, IndexEntryBytes(f), k);
  }

  /** GetUInt32Indices: the three entries of the triangle that starts at
    * entry `triIndexIndex`, zero-extended to 32 bits. */
  method GetUInt32Indices(indexFormat: IndexFormat, indices: seq<byte>, triIndexIndex: nat, outIndices: array<nat>)
    requires outIndices.Length == 3
    requires (triIndexIndex + 3) * IndexEntryBytes(indexFormat) <= |indices|
    modifies outIndices
    ensures outIndices[0] == UnsignedIndexAt(indices, indexFormat, triIndexIndex)
    ensures outIndices[1] == UnsignedIndexAt(indices, indexFormat, triIndexIndex + 1)
    ensures outIndices[2] == UnsignedIndexAt(indices, indexFormat, triIndexIndex + 2)
  {
    if indexFormat == I16_UINT {
      outIndices[0] := ReadUnsigned(indices, 2 * (triIndexIndex + 0), 2);
      outIndices[1] := ReadUnsigned(indices, 2 * (triIndexIndex + 1), 2);
      outIndices[2] := ReadUnsigned(indices, 2 * (triIndexIndex + 2), 2);
    } else {
      outIndices[0] := ReadUnsigned(indices, 4 * (triIndexIndex + 0), 4);
      outIndices[1] := ReadUnsigned(indices, 4 * (triIndexIndex + 1), 4);
      outIndices[2] := ReadUnsigned(indices, 4 * (triIndexIndex + 2), 4);
    }
  }
}
