/** The SDK's CPU-side copy of an alpha texture (TextureImpl in
  * omm-sdk/src/texture_impl.cpp/.h): the descriptor check, the layout of the
  * mip chain in one 64-byte-aligned allocation, the copy of each mip in
  * linear or Morton (Z-order) tiling, and the texel read that the bakers use. */
module CpuTexture {
  import opened Bits
  import opened Bytes
  import opened OmmTypes
  import opened MathUtil
  import opened BitTricks
  import Texture

  /** TilingMode: how texels of a mip are ordered in the allocation. */
  datatype TilingMode = Linear | MortonZ | TilingMAX_NUM

  /** ommCpuTextureMipDesc; a null textureData pointer is None, and the bytes
    * it points to are the sequence. rowPitch 0 means "tightly packed". */
  datatype MipDesc = MipDesc(width: nat, height: nat, rowPitch: nat, textureData: Option<seq<byte>>)

  /** ommCpuTextureDesc; mips holds (at least) the mipCount entries the
    * descriptor's array points to. */
  datatype TextureDesc = TextureDesc(format: CpuTextureFormat, flags: nat, mips: seq<MipDesc>, mipCount: nat)

  /** TextureImpl::Mips: one mip's size, reciprocal size, size minus one, and
    * where its numElements 4-byte texels start in the allocation. */
  datatype Mips = Mips(sizeX: int, sizeY: int, rcpSizeX: real, rcpSizeY: real,
                       sizeMinusOneX: int, sizeMinusOneY: int, dataOffset: nat, numElements: nat)

  /** A value-initialised Mips record, as vector::resize makes them. */
  const ZeroMips := Mips(0, 0, 0.0, 0.0, 0, 0, 0, 0)

  const kMaxDim: nat := 65536
  const kAlignment: nat := 64

  /** The checks Validate makes on one mip. */
  predicate MipValid(m: MipDesc)
  {
    m.textureData.Some? && m.width != 0 && m.height != 0 && m.width <= kMaxDim && m.height <= kMaxDim
  }

  /** A descriptor Validate accepts. */
  predicate DescValid(desc: TextureDesc)
    requires desc.mipCount <= |desc.mips|
  {
    desc.mipCount != 0 && desc.format != CpuTextureMAX_NUM &&
    forall i :: 0 <= i < desc.mipCount ==> MipValid(desc.mips[i])
  }

  /** TextureImpl::Validate: SUCCESS exactly for a descriptor with at least
    * one mip, a real format, and every mip non-null, non-empty and at most
    * kMaxDim on each side; INVALID_ARGUMENT otherwise. */
  method Validate(desc: TextureDesc) returns (r: OmmResult)
    requires desc.mipCount <= |desc.mips|
    ensures r == SUCCESS || r == INVALID_ARGUMENT
    ensures r == SUCCESS <==> DescValid(desc)
  {
    if desc.mipCount == 0 {
      return INVALID_ARGUMENT;
    }
    if desc.format == CpuTextureMAX_NUM {
      return INVALID_ARGUMENT;
    }
    var i := 0;
    while i < desc.mipCount
      invariant 0 <= i <= desc.mipCount
      invariant forall j :: 0 <= j < i ==> MipValid(desc.mips[j])
    {
      var m := desc.mips[i];
      if m.textureData.None? {
        return INVALID_ARGUMENT;
      }
      if m.width == 0 {
        return INVALID_ARGUMENT;
      }
      if m.height == 0 {
        return INVALID_ARGUMENT;
      }
      if m.width > kMaxDim {
        return INVALID_ARGUMENT;
      }
      if m.height > kMaxDim {
        return INVALID_ARGUMENT;
      }
      i := i + 1;
    }
    return SUCCESS;
  }

  /** The tiling Create picks: Linear when the DisableZOrder flag is set. */
  function TilingFor(flags: nat): TilingMode
  {
    if BitAnd(flags, DisableZOrder) != 0 then Linear else MortonZ
  }

  /** The flag is bit 0: an odd flags word selects Linear, an even one MortonZ. */
  lemma TilingForIsBitZero(flags: nat)
    ensures TilingFor(flags) == Linear <==> flags % 2 == 1
    ensures TilingFor(flags) != TilingMAX_NUM
  {
    AndLowMask(flags, 1);
  }

  /** nextPow2(max(w, h)): the side of the square a Morton-ordered mip fills. */
  function MortonSide(w: nat, h: nat): (d: nat)
    ensures d >= w && d >= h
  {
    CeilLog2Bounds(Max(w, h));
    Pow2(CeilLog2(Max(w, h)))
  }

  /** Mips::numElements: the texel slots a w x h mip occupies. */
  function NumElements(w: nat, h: nat, tiling: TilingMode): nat
  {
    if tiling == Linear then w * h else MortonSide(w, h) * MortonSide(w, h)
  }

  /** From2Dto1D: the slot of texel (x, y) in a mip of width w. */
  function From2Dto1D(tiling: TilingMode, x: nat, y: nat, w: nat): nat
  {
    if tiling == Linear then x + y * w else MortonIndex(x, y)
  }

  /** Every texel of a w x h mip has its slot below numElements, in both tilings. */
  lemma From2Dto1DInRange(tiling: TilingMode, x: nat, y: nat, w: nat, h: nat)
    requires x < w && y < h
    ensures From2Dto1D(tiling, x, y, w) < NumElements(w, h, tiling)
  {
    if tiling == Linear {
      LinearSlotBelow(x, y, w, h);
    } else {
      CeilLog2Bounds(Max(w, h));
      MortonIndexBound(x, y, CeilLog2(Max(w, h)));
    }
  }

  lemma LinearSlotBelow(x: nat, y: nat, w: nat, h: nat)
    requires x < w && y < h
    ensures x + y * w < w * h
  {
    assert y * w + w == (y + 1) * w;
    assert (y + 1) * w <= h * w;
  }

  /** Distinct texels of a mip get distinct slots, in both tilings. */
  lemma From2Dto1DInjective(tiling: TilingMode, x1: nat, y1: nat, x2: nat, y2: nat, w: nat)
    requires x1 < w && x2 < w
    requires From2Dto1D(tiling, x1, y1, w) == From2Dto1D(tiling, x2, y2, w)
    ensures x1 == x2 && y1 == y2
  {
    if tiling == Linear {
      DivModUnique(x1 + y1 * w, w, y1, x1);
      DivModUnique(x2 + y2 * w, w, y2, x2);
    } else {
      MortonIndexInjective(x1, y1, x2, y2);
    }
  }

  /** The exact round-up to a multiple of 64 that Align computes when nothing wraps. */
  function RoundUp64(x: nat): nat
  {
    ((x + 63) / 64) * 64
  }

  lemma AlignIsRoundUp64(x: nat)
    requires x + 63 < U64_LIMIT
    ensures Align(x, kAlignment) == RoundUp64(x)
    ensures x <= RoundUp64(x) && RoundUp64(x) % 64 == 0
  {
    assert Pow2(6) == 64;
    AlignRoundsUp(x, 64, 6);
    RoundUp64IsNextMultiple(x, Align(x, 64));
  }

  /** The multiple of 64 in [x, x + 64) is RoundUp64(x). */
  lemma RoundUp64IsNextMultiple(x: nat, a: nat)
    requires a % 64 == 0 && x <= a < x + 64
    ensures a == RoundUp64(x) && RoundUp64(x) % 64 == 0
  {
    var q := a / 64;
    DivModUnique(a, 64, q, 0);
    DivModUnique(x + 63, 64, q, x + 63 - 64 * q);
    DivModUnique(RoundUp64(x), 64, (x + 63) / 64, 0);
  }

  /** The bytes mip m takes before alignment. */
  function MipBytes(m: MipDesc, tiling: TilingMode): nat
  {
    4 * NumElements(m.width, m.height, tiling)
  }

  /** The running total after laying out ms: where the next mip would start,
    * and for the whole chain the size of the allocation. */
  function EndOffset(ms: seq<MipDesc>, tiling: TilingMode): nat
  {
    if |ms| == 0 then 0
    else RoundUp64(EndOffset(ms[..|ms| - 1], tiling) + MipBytes(ms[|ms| - 1], tiling))
  }

  /** The record Create fills in for mip m placed at offset. */
  function MipLayout(m: MipDesc, tiling: TilingMode, offset: nat): Mips
  {
    var w := m.width;
    var h := m.height;
    Mips(w, h, if w == 0 then 0.0 else 1.0 / (w as real), if h == 0 then 0.0 else 1.0 / (h as real),
         w - 1, h - 1, offset, NumElements(w, h, tiling))
  }

  /** The records of the whole chain: each mip starts at the running total of those before it. */
  function Layout(ms: seq<MipDesc>, tiling: TilingMode): (r: seq<Mips>)
    ensures |r| == |ms|
  {
    if |ms| == 0 then []
    else Layout(ms[..|ms| - 1], tiling) + [MipLayout(ms[|ms| - 1], tiling, EndOffset(ms[..|ms| - 1], tiling))]
  }

  /** Entry k of the layout is mip k placed at the running total of mips 0..k-1. */
  lemma {:induction false} LayoutAt(ms: seq<MipDesc>, tiling: TilingMode, k: nat)
    requires k < |ms|
    ensures Layout(ms, tiling)[k] == MipLayout(ms[k], tiling, EndOffset(ms[..k], tiling))
  {
    var n := |ms| - 1;
    if k < n {
      var init := ms[..n];
      LayoutAt(init, tiling, k);
      assert init[..k] == ms[..k];
    }
  }

  /** The running total never decreases, and mip k's bytes end before mip k+1 starts. */
  lemma {:induction false} EndOffsetGrows(ms: seq<MipDesc>, tiling: TilingMode, i: nat, j: nat)
    requires i <= j <= |ms|
    ensures EndOffset(ms[..i], tiling) <= EndOffset(ms[..j], tiling)
    decreases j - i
  {
    if i < j {
      EndOffsetStep(ms, tiling, i);
      EndOffsetGrows(ms, tiling, i + 1, j);
    }
  }

  lemma EndOffsetStep(ms: seq<MipDesc>, tiling: TilingMode, i: nat)
    requires i < |ms|
    ensures EndOffset(ms[..i], tiling) + MipBytes(ms[i], tiling) <= EndOffset(ms[..i + 1], tiling)
    ensures EndOffset(ms[..i + 1], tiling) == RoundUp64(EndOffset(ms[..i], tiling) + MipBytes(ms[i], tiling))
  {
    var p := ms[..i + 1];
    assert p[..|p| - 1] == ms[..i];
    var x := EndOffset(ms[..i], tiling) + MipBytes(ms[i], tiling);
    DivModUnique(x + 63, 64, (x + 63) / 64, (x + 63) % 64);
  }

  /** The layout's guarantees: every mip starts on a 64-byte boundary, its
    * bytes lie inside the allocation, and they end before any later mip starts. */
  lemma LayoutPlacement(ms: seq<MipDesc>, tiling: TilingMode, k: nat, l: nat)
    requires k < l <= |ms|
    ensures Layout(ms, tiling)[k].dataOffset % 64 == 0
    ensures Layout(ms, tiling)[k].dataOffset + 4 * Layout(ms, tiling)[k].numElements <= EndOffset(ms, tiling)
    ensures l < |ms| ==> Layout(ms, tiling)[k].dataOffset + 4 * Layout(ms, tiling)[k].numElements <= Layout(ms, tiling)[l].dataOffset
  {
    LayoutAt(ms, tiling, k);
    EndOffsetAligned(ms[..k], tiling);
    EndOffsetStep(ms, tiling, k);
    EndOffsetGrows(ms, tiling, k + 1, l);
    EndOffsetGrows(ms, tiling, l, |ms|);
    assert ms[..|ms|] == ms;
    if l < |ms| {
      LayoutAt(ms, tiling, l);
    }
  }

  lemma EndOffsetAligned(ms: seq<MipDesc>, tiling: TilingMode)
    ensures EndOffset(ms, tiling) % 64 == 0
  {
    if |ms| > 0 {
      var x := EndOffset(ms[..|ms| - 1], tiling) + MipBytes(ms[|ms| - 1], tiling);
      DivModUnique(RoundUp64(x), 64, (x + 63) / 64, 0);
    }
  }

  /** The source row pitch of the linear copy, in bytes (0 means 4 * width). */
  function LinearPitch(m: MipDesc): nat
  {
    if m.rowPitch == 0 then 4 * m.width else m.rowPitch
  }

  /** The source row pitch of the Morton copy, in 4-byte elements (0 means width). */
  function MortonPitch(m: MipDesc): nat
  {
    if m.rowPitch == 0 then m.width else m.rowPitch
  }

  /** Where texel (x, y) starts in the caller's data, as each copy addresses it. */
  function SourceOffset(m: MipDesc, tiling: TilingMode, x: nat, y: nat): nat
  {
    if tiling == Linear then y * LinearPitch(m) + 4 * x else 4 * (x + y * MortonPitch(m))
  }

  /** The caller's data holds every texel the copy reads. */
  predicate SourceCovers(m: MipDesc, tiling: TilingMode)
    requires MipValid(m)
  {
    SourceOffset(m, tiling, m.width - 1, m.height - 1) + 4 <= |m.textureData.value|
  }

  lemma SourceInBounds(m: MipDesc, tiling: TilingMode, x: nat, y: nat)
    requires MipValid(m) && SourceCovers(m, tiling) && x < m.width && y < m.height
    ensures SourceOffset(m, tiling, x, y) + 4 <= |m.textureData.value|
  {
    MulLe(y, m.height - 1, LinearPitch(m));
    MulLe(y, m.height - 1, MortonPitch(m));
  }

  /** The four bytes of texel (x, y) in the caller's data. */
  function SourceTexel(m: MipDesc, tiling: TilingMode, x: nat, y: nat): seq<byte>
    requires MipValid(m) && SourceCovers(m, tiling) && x < m.width && y < m.height
  {
    SourceInBounds(m, tiling, x, y);
    var o := SourceOffset(m, tiling, x, y);
    m.textureData.value[o..o + 4]
  }

  /** Texel (x, y) of mip m sits in slot From2Dto1D of the n slots at off. */
  predicate TexelCopied(d: seq<byte>, off: nat, n: nat, m: MipDesc, tiling: TilingMode, x: nat, y: nat)
    requires MipValid(m) && SourceCovers(m, tiling) && x < m.width && y < m.height
    requires n == NumElements(m.width, m.height, tiling) && off + 4 * n <= |d|
  {
    From2Dto1DInRange(tiling, x, y, m.width, m.height);
    var i := From2Dto1D(tiling, x, y, m.width);
    d[off + 4 * i..off + 4 * i + 4] == SourceTexel(m, tiling, x, y)
  }

  /** Every texel of mip m sits in its slot of the n slots at off. */
  predicate MipCopied(d: seq<byte>, off: nat, n: nat, m: MipDesc, tiling: TilingMode)
    requires MipValid(m) && SourceCovers(m, tiling)
  {
    n == NumElements(m.width, m.height, tiling) && off + 4 * n <= |d| &&
    forall x: nat, y: nat | x < m.width && y < m.height :: TexelCopied(d, off, n, m, tiling, x, y)
  }

  /** A copied mip stays copied as long as its own bytes are not touched. */
  lemma MipCopiedKept(d1: seq<byte>, d2: seq<byte>, off: nat, n: nat, m: MipDesc, tiling: TilingMode)
    requires MipValid(m) && SourceCovers(m, tiling) && MipCopied(d1, off, n, m, tiling)
    requires off + 4 * n <= |d2| && d1[off..off + 4 * n] == d2[off..off + 4 * n]
    ensures MipCopied(d2, off, n, m, tiling)
  {
    forall x: nat, y: nat | x < m.width && y < m.height
      ensures TexelCopied(d2, off, n, m, tiling, x, y)
    {
      assert TexelCopied(d1, off, n, m, tiling, x, y);
      From2Dto1DInRange(tiling, x, y, m.width, m.height);
      var i := From2Dto1D(tiling, x, y, m.width);
      SubSlice(d1, off, d2, off, 4 * n, 4 * i, 4);
    }
  }

  /** Bytes in a range a write kept out of are unchanged. */
  lemma KeptOutside(a: seq<byte>, b: seq<byte>, lo: nat, hi: nat, i: nat, k: nat)
    requires lo <= hi <= |a| == |b| && a[..lo] == b[..lo] && a[hi..] == b[hi..]
    requires i + k <= |a| && (i + k <= lo || hi <= i)
    ensures a[i..i + k] == b[i..i + k]
  {
    if i + k <= lo {
      assert a[i..i + k] == a[..lo][i..i + k];
      assert b[i..i + k] == b[..lo][i..i + k];
    } else {
      forall j | i <= j < i + k
        ensures a[j] == b[j]
      {
        assert a[j] == a[hi..][j - hi] && b[j] == b[hi..][j - hi];
      }
    }
  }

  /** std::memcpy of n bytes from src[srcOff..] to dst[dstOff..]. */
  method Memcpy(dst: array<byte>, dstOff: nat, src: seq<byte>, srcOff: nat, n: nat)
    requires dstOff + n <= dst.Length && srcOff + n <= |src|
    modifies dst
    ensures dst[dstOff..dstOff + n] == src[srcOff..srcOff + n]
    ensures dst[..dstOff] == old(dst[..dstOff]) && dst[dstOff + n..] == old(dst[dstOff + n..])
  {
    var k := 0;
    while k < n
      invariant 0 <= k <= n
      invariant dst[dstOff..dstOff + k] == src[srcOff..srcOff + k]
      invariant dst[..dstOff] == old(dst[..dstOff]) && dst[dstOff + n..] == old(dst[dstOff + n..])
    {
      dst[dstOff + k] := src[srcOff + k];
      k := k + 1;
    }
  }

  /** Rows 0..rows-1 of mip m copied verbatim, 4 * width bytes each, to
    * consecutive rows at off. */
  predicate RowsCopied(d: seq<byte>, off: nat, m: MipDesc, rows: nat)
  {
    forall r: nat | r < rows :: RowCopied(d, off, m, r)
  }

  /** Where row r of the copy starts in the allocation and in the caller's data. */
  function DstRow(off: nat, m: MipDesc, r: nat): nat
  {
    off + r * (4 * m.width)
  }

  function SrcRow(m: MipDesc, r: nat): nat
  {
    r * LinearPitch(m)
  }

  predicate RowCopied(d: seq<byte>, off: nat, m: MipDesc, r: nat)
  {
    m.textureData.Some? &&
    DstRow(off, m, r) + 4 * m.width <= |d| && SrcRow(m, r) + 4 * m.width <= |m.textureData.value| &&
    d[DstRow(off, m, r)..DstRow(off, m, r) + 4 * m.width] ==
      m.textureData.value[SrcRow(m, r)..SrcRow(m, r) + 4 * m.width]
  }

  lemma RowInBounds(m: MipDesc, r: nat)
    requires MipValid(m) && SourceCovers(m, Linear) && r < m.height
    ensures DstRow(0, m, r) + 4 * m.width <= 4 * (m.width * m.height)
    ensures SrcRow(m, r) + 4 * m.width <= |m.textureData.value|
  {
    MulLe(r + 1, m.height, 4 * m.width);
    assert m.height * (4 * m.width) == 4 * (m.width * m.height);
    MulLe(r, m.height - 1, LinearPitch(m));
  }

  lemma LinearByteOffset(x: nat, y: nat, w: nat)
    ensures 4 * (x + y * w) == y * (4 * w) + 4 * x
  {
  }

  /** A texel of a copied row is a copied texel. */
  lemma RowTexel(d: seq<byte>, off: nat, m: MipDesc, x: nat, y: nat)
    requires MipValid(m) && SourceCovers(m, Linear) && x < m.width && y < m.height
    requires off + 4 * (m.width * m.height) <= |d| && RowCopied(d, off, m, y)
    ensures TexelCopied(d, off, m.width * m.height, m, Linear, x, y)
  {
    RowSlice(d, off, m, y);
    SubSlice(d, DstRow(off, m, y), m.textureData.value, SrcRow(m, y), 4 * m.width, 4 * x, 4);
    TexelOffsets(m, off, x, y);
  }

  lemma RowSlice(d: seq<byte>, off: nat, m: MipDesc, y: nat)
    requires MipValid(m) && SourceCovers(m, Linear) && y < m.height
    requires off + 4 * (m.width * m.height) <= |d| && RowCopied(d, off, m, y)
    ensures DstRow(off, m, y) + 4 * m.width <= |d|
    ensures SrcRow(m, y) + 4 * m.width <= |m.textureData.value|
    ensures d[DstRow(off, m, y)..DstRow(off, m, y) + 4 * m.width] ==
            m.textureData.value[SrcRow(m, y)..SrcRow(m, y) + 4 * m.width]
  {
    RowInBounds(m, y);
  }

  lemma TexelOffsets(m: MipDesc, off: nat, x: nat, y: nat)
    ensures off + 4 * From2Dto1D(Linear, x, y, m.width) == DstRow(off, m, y) + 4 * x
    ensures SourceOffset(m, Linear, x, y) == SrcRow(m, y) + 4 * x
  {
    LinearByteOffset(x, y, m.width);
  }

  /** Copied rows are a copied mip in linear tiling. */
  lemma RowsAreMip(d: seq<byte>, off: nat, m: MipDesc)
    requires MipValid(m) && SourceCovers(m, Linear)
    requires off + 4 * (m.width * m.height) <= |d| && RowsCopied(d, off, m, m.height)
    ensures MipCopied(d, off, m.width * m.height, m, Linear)
  {
    forall x: nat, y: nat | x < m.width && y < m.height
      ensures TexelCopied(d, off, m.width * m.height, m, Linear, x, y)
    {
      RowTexel(d, off, m, x, y);
    }
  }

  /** A tightly packed source copied in one piece is a copied mip in linear tiling. */
  lemma VerbatimTexel(d: seq<byte>, off: nat, m: MipDesc, x: nat, y: nat)
    requires MipValid(m) && SourceCovers(m, Linear) && LinearPitch(m) == 4 * m.width
    requires x < m.width && y < m.height
    requires off + 4 * (m.width * m.height) <= |d| && 4 * (m.width * m.height) <= |m.textureData.value|
    requires d[off..off + 4 * (m.width * m.height)] == m.textureData.value[0..4 * (m.width * m.height)]
    ensures TexelCopied(d, off, m.width * m.height, m, Linear, x, y)
  {
    MulNat(m.width, m.height);
    MulNat(y, m.width);
    var n := m.width * m.height;
    var i := x + y * m.width;
    LinearSlotBelow(x, y, m.width, m.height);
    SubSlice(d, off, m.textureData.value, 0, 4 * n, 4 * i, 4);
    LinearByteOffset(x, y, m.width);
    assert From2Dto1D(Linear, x, y, m.width) == i;
    assert SourceOffset(m, Linear, x, y) == 4 * i;
  }

  /** The linear copy of one mip: one memcpy when the source rows are tightly
    * packed, otherwise one memcpy of 4 * width bytes per row. */
  method CopyLinear(data: array<byte>, off: nat, m: MipDesc)
    requires MipValid(m) && SourceCovers(m, Linear)
    requires off + 4 * (m.width * m.height) <= data.Length
    modifies data
    ensures MipCopied(data[..], off, m.width * m.height, m, Linear)
    ensures data[..off] == old(data[..off])
    ensures data[off + 4 * (m.width * m.height)..] == old(data[off + 4 * (m.width * m.height)..])
  {
    var defaultRowPitch := 4 * m.width;
    var srcRowPitch := if m.rowPitch == 0 then defaultRowPitch else m.rowPitch;
    if defaultRowPitch == srcRowPitch {
      var n := m.width * m.height;
      RowInBounds(m, m.height - 1);
      Memcpy(data, off, m.textureData.value, 0, 4 * n);
      VerbatimMip(data[..], off, m);
    } else {
      CopyRows(data, off, m, srcRowPitch);
      RowsAreMip(data[..], off, m);
    }
  }

  lemma VerbatimMip(d: seq<byte>, off: nat, m: MipDesc)
    requires MipValid(m) && SourceCovers(m, Linear) && LinearPitch(m) == 4 * m.width
    requires off + 4 * (m.width * m.height) <= |d| && 4 * (m.width * m.height) <= |m.textureData.value|
    requires d[off..off + 4 * (m.width * m.height)] == m.textureData.value[0..4 * (m.width * m.height)]
    ensures MipCopied(d, off, m.width * m.height, m, Linear)
  {
    forall x: nat, y: nat | x < m.width && y < m.height
      ensures TexelCopied(d, off, m.width * m.height, m, Linear, x, y)
    {
      VerbatimTexel(d, off, m, x, y);
    }
  }

  /** The row-by-row branch of the linear copy. */
  method CopyRows(data: array<byte>, off: nat, m: MipDesc, srcRowPitch: nat)
    requires MipValid(m) && SourceCovers(m, Linear) && srcRowPitch == LinearPitch(m)
    requires off + 4 * (m.width * m.height) <= data.Length
    modifies data
    ensures RowsCopied(data[..], off, m, m.height)
    ensures data[..off] == old(data[..off])
    ensures data[off + 4 * (m.width * m.height)..] == old(data[off + 4 * (m.width * m.height)..])
  {
    var rowIt := 0;
    while rowIt < m.height
      invariant 0 <= rowIt <= m.height
      invariant RowsCopied(data[..], off, m, rowIt)
      invariant data[..off] == old(data[..off])
      invariant data[off + 4 * (m.width * m.height)..] == old(data[off + 4 * (m.width * m.height)..])
    {
      CopyRow(data, off, m, rowIt, srcRowPitch);
      rowIt := rowIt + 1;
    }
  }

  /** One memcpy of the row loop: row rowIt, 4 * width bytes. */
  method CopyRow(data: array<byte>, off: nat, m: MipDesc, rowIt: nat, srcRowPitch: nat)
    requires MipValid(m) && SourceCovers(m, Linear) && srcRowPitch == LinearPitch(m) && rowIt < m.height
    requires off + 4 * (m.width * m.height) <= data.Length
    requires RowsCopied(data[..], off, m, rowIt)
    modifies data
    ensures RowsCopied(data[..], off, m, rowIt + 1)
    ensures data[..off] == old(data[..off])
    ensures data[off + 4 * (m.width * m.height)..] == old(data[off + 4 * (m.width * m.height)..])
  {
    var dstRowPitch := 4 * m.width;
    ghost var before := data[..];
    var dstAt := off + rowIt * dstRowPitch;
    var srcAt := rowIt * srcRowPitch;
    RowAddresses(off, m, rowIt, dstRowPitch, srcRowPitch);
    Memcpy(data, dstAt, m.textureData.value, srcAt, dstRowPitch);
    RowIteration(before, data[..], off, m, rowIt);
  }

  lemma RowAddresses(off: nat, m: MipDesc, rowIt: nat, dstRowPitch: nat, srcRowPitch: nat)
    requires MipValid(m) && SourceCovers(m, Linear) && rowIt < m.height
    requires dstRowPitch == 4 * m.width && srcRowPitch == LinearPitch(m)
    ensures dstRowPitch == 4 * m.width
    ensures off + rowIt * dstRowPitch == DstRow(off, m, rowIt)
    ensures rowIt * srcRowPitch == SrcRow(m, rowIt)
    ensures DstRow(off, m, rowIt) + dstRowPitch <= off + 4 * (m.width * m.height)
    ensures SrcRow(m, rowIt) + dstRowPitch <= |m.textureData.value|
  {
    RowInBounds(m, rowIt);
  }

  /** One pass of the row loop keeps its invariant. */
  lemma RowIteration(before: seq<byte>, after: seq<byte>, off: nat, m: MipDesc, rowIt: nat)
    requires MipValid(m) && SourceCovers(m, Linear) && rowIt < m.height
    requires off + 4 * (m.width * m.height) <= |before| == |after|
    requires RowsCopied(before, off, m, rowIt)
    requires DstRow(off, m, rowIt) + 4 * m.width <= off + 4 * (m.width * m.height)
    requires SrcRow(m, rowIt) + 4 * m.width <= |m.textureData.value|
    requires after[DstRow(off, m, rowIt)..DstRow(off, m, rowIt) + 4 * m.width] ==
             m.textureData.value[SrcRow(m, rowIt)..SrcRow(m, rowIt) + 4 * m.width]
    requires after[..DstRow(off, m, rowIt)] == before[..DstRow(off, m, rowIt)]
    requires after[DstRow(off, m, rowIt) + 4 * m.width..] == before[DstRow(off, m, rowIt) + 4 * m.width..]
    ensures RowsCopied(after, off, m, rowIt + 1)
    ensures after[..off] == before[..off]
    ensures after[off + 4 * (m.width * m.height)..] == before[off + 4 * (m.width * m.height)..]
  {
    var lo := DstRow(off, m, rowIt);
    RowsStep(before, after, off, m, rowIt);
    PrefixKept(before, after, lo, off);
    SuffixKept(before, after, lo, lo + 4 * m.width, off + 4 * (m.width * m.height));
  }

  /** Copying row rowIt keeps the rows before it. */
  lemma RowsStep(before: seq<byte>, after: seq<byte>, off: nat, m: MipDesc, rowIt: nat)
    requires MipValid(m) && SourceCovers(m, Linear) && rowIt < m.height
    requires off + 4 * (m.width * m.height) <= |before| == |after|
    requires RowsCopied(before, off, m, rowIt)
    requires DstRow(off, m, rowIt) + 4 * m.width <= |after|
    requires SrcRow(m, rowIt) + 4 * m.width <= |m.textureData.value|
    requires after[DstRow(off, m, rowIt)..DstRow(off, m, rowIt) + 4 * m.width] ==
             m.textureData.value[SrcRow(m, rowIt)..SrcRow(m, rowIt) + 4 * m.width]
    requires after[..DstRow(off, m, rowIt)] == before[..DstRow(off, m, rowIt)]
    requires after[DstRow(off, m, rowIt) + 4 * m.width..] == before[DstRow(off, m, rowIt) + 4 * m.width..]
    ensures RowsCopied(after, off, m, rowIt + 1)
  {
    var lo := DstRow(off, m, rowIt);
    forall r: nat | r < rowIt
      ensures RowCopied(after, off, m, r)
    {
      assert RowCopied(before, off, m, r);
      RowsApart(off, m, r, rowIt);
      RowInBounds(m, r);
      KeptOutside(before, after, lo, lo + 4 * m.width, DstRow(off, m, r), 4 * m.width);
    }
  }

  lemma RowsApart(off: nat, m: MipDesc, r: nat, s: nat)
    requires r < s
    ensures DstRow(off, m, r) + 4 * m.width <= DstRow(off, m, s)
  {
    MulLe(r + 1, s, 4 * m.width);
  }

  lemma PrefixKept(a: seq<byte>, b: seq<byte>, lo: nat, upto: nat)
    requires upto <= lo <= |a| == |b| && a[..lo] == b[..lo]
    ensures a[..upto] == b[..upto]
  {
    assert a[..upto] == a[..lo][..upto];
    assert b[..upto] == b[..lo][..upto];
  }

  lemma SuffixKept(a: seq<byte>, b: seq<byte>, lo: nat, hi: nat, from: nat)
    requires lo <= hi <= from <= |a| == |b| && a[hi..] == b[hi..]
    ensures a[from..] == b[from..]
  {
    assert a[from..] == a[hi..][from - hi..];
    assert b[from..] == b[hi..][from - hi..];
  }

  /** The Morton copy has placed texel (x, y) once the loops have passed it:
    * every row before j, and the first i texels of row j. */
  predicate MortonDone(d: seq<byte>, off: nat, m: MipDesc, j: nat, i: nat)
    requires MipValid(m) && SourceCovers(m, MortonZ)
    requires off + 4 * NumElements(m.width, m.height, MortonZ) <= |d|
  {
    forall x: nat, y: nat | x < m.width && y < m.height && (y < j || (y == j && x < i)) ::
      TexelCopied(d, off, NumElements(m.width, m.height, MortonZ), m, MortonZ, x, y)
  }

  /** The Morton copy of one mip: texel (i, j) of the caller's data, at
    * element i + j * rowPitch, goes to slot MortonIndex(i, j). */
  method CopyMorton(data: array<byte>, off: nat, m: MipDesc)
    requires MipValid(m) && SourceCovers(m, MortonZ)
    requires off + 4 * NumElements(m.width, m.height, MortonZ) <= data.Length
    modifies data
    ensures MipCopied(data[..], off, NumElements(m.width, m.height, MortonZ), m, MortonZ)
    ensures data[..off] == old(data[..off])
    ensures data[off + 4 * NumElements(m.width, m.height, MortonZ)..] ==
            old(data[off + 4 * NumElements(m.width, m.height, MortonZ)..])
  {
    var rowPitch := if m.rowPitch == 0 then m.width else m.rowPitch;
    var j := 0;
    while j < m.height
      invariant 0 <= j <= m.height
      invariant MortonDone(data[..], off, m, j, 0)
      invariant data[..off] == old(data[..off])
      invariant data[off + 4 * NumElements(m.width, m.height, MortonZ)..] ==
                old(data[off + 4 * NumElements(m.width, m.height, MortonZ)..])
    {
      var i := 0;
      while i < m.width
        invariant 0 <= i <= m.width
        invariant MortonDone(data[..], off, m, j, i)
        invariant data[..off] == old(data[..off])
        invariant data[off + 4 * NumElements(m.width, m.height, MortonZ)..] ==
                  old(data[off + 4 * NumElements(m.width, m.height, MortonZ)..])
      {
        CopyMortonTexel(data, off, m, i, j, rowPitch);
        i := i + 1;
      }
      MortonNextRow(data[..], off, m, j);
      j := j + 1;
    }
    MortonAllDone(data[..], off, m);
  }

  lemma MortonNextRow(d: seq<byte>, off: nat, m: MipDesc, j: nat)
    requires MipValid(m) && SourceCovers(m, MortonZ)
    requires off + 4 * NumElements(m.width, m.height, MortonZ) <= |d|
    requires MortonDone(d, off, m, j, m.width)
    ensures MortonDone(d, off, m, j + 1, 0)
  {
  }

  lemma MortonAllDone(d: seq<byte>, off: nat, m: MipDesc)
    requires MipValid(m) && SourceCovers(m, MortonZ)
    requires off + 4 * NumElements(m.width, m.height, MortonZ) <= |d|
    requires MortonDone(d, off, m, m.height, 0)
    ensures MipCopied(d, off, NumElements(m.width, m.height, MortonZ), m, MortonZ)
  {
  }

  /** dst[morton(i, j)] = src[i + j * rowPitch]: one 4-byte element. */
  method CopyMortonTexel(data: array<byte>, off: nat, m: MipDesc, i: nat, j: nat, rowPitch: nat)
    requires MipValid(m) && SourceCovers(m, MortonZ) && rowPitch == MortonPitch(m)
    requires i < m.width && j < m.height
    requires off + 4 * NumElements(m.width, m.height, MortonZ) <= data.Length
    requires MortonDone(data[..], off, m, j, i)
    modifies data
    ensures MortonDone(data[..], off, m, j, i + 1)
    ensures data[..off] == old(data[..off])
    ensures data[off + 4 * NumElements(m.width, m.height, MortonZ)..] ==
            old(data[off + 4 * NumElements(m.width, m.height, MortonZ)..])
  {
    var idx := From2Dto1D(MortonZ, i, j, m.width);
    From2Dto1DInRange(MortonZ, i, j, m.width, m.height);
    var srcAt := 4 * (i + j * rowPitch);
    SourceInBounds(m, MortonZ, i, j);
    ghost var before := data[..];
    Memcpy(data, off + 4 * idx, m.textureData.value, srcAt, 4);
    MortonStep(before, data[..], off, m, i, j);
  }

  /** Writing slot MortonIndex(i, j) keeps every texel placed before it. */
  lemma MortonStep(before: seq<byte>, after: seq<byte>, off: nat, m: MipDesc, i: nat, j: nat)
    requires MipValid(m) && SourceCovers(m, MortonZ) && i < m.width && j < m.height
    requires off + 4 * NumElements(m.width, m.height, MortonZ) <= |before| == |after|
    requires MortonDone(before, off, m, j, i)
    requires From2Dto1D(MortonZ, i, j, m.width) < NumElements(m.width, m.height, MortonZ)
    requires SourceOffset(m, MortonZ, i, j) + 4 <= |m.textureData.value|
    requires var lo := off + 4 * From2Dto1D(MortonZ, i, j, m.width);
      after[lo..lo + 4] == m.textureData.value[SourceOffset(m, MortonZ, i, j)..SourceOffset(m, MortonZ, i, j) + 4] &&
      after[..lo] == before[..lo] && after[lo + 4..] == before[lo + 4..]
    ensures MortonDone(after, off, m, j, i + 1)
    ensures after[..off] == before[..off]
    ensures after[off + 4 * NumElements(m.width, m.height, MortonZ)..] ==
            before[off + 4 * NumElements(m.width, m.height, MortonZ)..]
  {
    var n := NumElements(m.width, m.height, MortonZ);
    var lo := off + 4 * From2Dto1D(MortonZ, i, j, m.width);
    forall x: nat, y: nat | x < m.width && y < m.height && (y < j || (y == j && x < i + 1))
      ensures TexelCopied(after, off, n, m, MortonZ, x, y)
    {
      From2Dto1DInRange(MortonZ, x, y, m.width, m.height);
      var k := From2Dto1D(MortonZ, x, y, m.width);
      if x == i && y == j {
      } else {
        assert TexelCopied(before, off, n, m, MortonZ, x, y);
        if k == From2Dto1D(MortonZ, i, j, m.width) {
          From2Dto1DInjective(MortonZ, x, y, i, j, m.width);
        }
        KeptOutside(before, after, lo, lo + 4, off + 4 * k, 4);
      }
    }
    PrefixKept(before, after, lo, off);
    SuffixKept(before, after, lo, lo + 4, off + 4 * n);
  }

  /** The record Create leaves for mip m when the format is not FP32: the
    * sizes and offset are set, numElements is still zero. */
  function PartialMip(m: MipDesc): Mips
  {
    MipLayout(m, Linear, 0).(numElements := 0)
  }

  /** What Create needs of a descriptor Validate accepts: the whole layout
    * fits in size_t, and the caller's data cover every texel the copy reads. */
  predicate CreateFits(desc: TextureDesc)
    requires desc.mipCount <= |desc.mips| && DescValid(desc)
  {
    var t := TilingFor(desc.flags);
    EndOffset(desc.mips[..desc.mipCount], t) + 63 < U64_LIMIT &&
    forall k :: 0 <= k < desc.mipCount ==> SourceCovers(desc.mips[k], t)
  }

  /** A mip record of a texture in use: a real size, numElements as the
    * tiling demands, and its slots inside an allocation of len bytes. */
  predicate MipRecordValid(r: Mips, tiling: TilingMode, len: nat)
  {
    1 <= r.sizeX <= kMaxDim && 1 <= r.sizeY <= kMaxDim &&
    r.numElements == NumElements(r.sizeX, r.sizeY, tiling) &&
    r.dataOffset + 4 * r.numElements <= len
  }

  /** The layout of a validated chain describes every mip inside the allocation. */
  lemma LayoutRecordsValid(ms: seq<MipDesc>, tiling: TilingMode, k: nat)
    requires k < |ms| && MipValid(ms[k])
    ensures MipRecordValid(Layout(ms, tiling)[k], tiling, EndOffset(ms, tiling))
  {
    LayoutAt(ms, tiling, k);
    LayoutPlacement(ms, tiling, k, |ms|);
  }

  /** One step of the layout loop: the running total plus mip k's bytes fits,
    * and aligning it gives where mip k+1 starts. */
  lemma LayoutStep(desc: TextureDesc, t: TilingMode, k: nat, totalSize: nat, x: nat)
    requires desc.mipCount <= |desc.mips| && DescValid(desc) && CreateFits(desc)
    requires t == TilingFor(desc.flags) && k < desc.mipCount
    requires totalSize == EndOffset(desc.mips[..k], t) && x == totalSize + MipBytes(desc.mips[k], t)
    ensures x + 63 < U64_LIMIT
    ensures Align(x, kAlignment) == EndOffset(desc.mips[..k + 1], t)
  {
    EndOffsetStep(desc.mips, t, k);
    assert EndOffset(desc.mips[..k + 1], t) == RoundUp64(x);
    var ms := desc.mips[..desc.mipCount];
    assert ms[..k + 1] == desc.mips[..k + 1];
    EndOffsetGrows(ms, t, k + 1, |ms|);
    assert ms[..|ms|] == ms;
    AlignIsRoundUp64(x);
  }

  /** Completing record k of a layout that holds records 0..k-1 extends it by one. */
  lemma LayoutExtends(ms: seq<MipDesc>, t: TilingMode, k: nat, total: nat, before: seq<Mips>, after: seq<Mips>)
    requires k < |ms| && k < |before| && total == EndOffset(ms[..k], t)
    requires before[..k] == Layout(ms[..k], t)
    requires after == before[k := MipLayout(ms[k], t, total)]
    ensures after[..k + 1] == Layout(ms[..k + 1], t)
    ensures after[k + 1..] == before[k + 1..]
  {
    var p := ms[..k + 1];
    assert p[..k] == ms[..k];
    assert after[..k + 1] == before[..k] + [after[k]];
  }

  class TextureImpl {
    var mips: seq<Mips>
    var tilingMode: TilingMode
    var data: array?<byte>

    constructor()
      ensures mips == [] && tilingMode == TilingMAX_NUM && data == null
    {
      mips := [];
      tilingMode := TilingMAX_NUM;
      data := null;
    }

    /** A texture Create has filled: an allocation, a tiling, and records that
      * fit in it. */
    predicate Valid()
      reads this
    {
      data != null && tilingMode != TilingMAX_NUM &&
      forall k :: 0 <= k < |mips| ==> MipRecordValid(mips[k], tilingMode, data.Length)
    }

    /** The state a successful Create leaves for desc: the tiling its flags
      * select, the layout of its mips, an allocation of the layout's size,
      * and every texel of every mip in its slot. */
    predicate Created(desc: TextureDesc)
      requires desc.mipCount <= |desc.mips|
      reads this, data
    {
      data != null && tilingMode == TilingFor(desc.flags) &&
      mips == Layout(desc.mips[..desc.mipCount], tilingMode) &&
      data.Length == EndOffset(desc.mips[..desc.mipCount], tilingMode) &&
      forall k :: 0 <= k < desc.mipCount ==>
        MipValid(desc.mips[k]) && SourceCovers(desc.mips[k], tilingMode) &&
        MipCopied(data[..], mips[k].dataOffset, mips[k].numElements, desc.mips[k], tilingMode)
    }

    function GetTilingMode(): TilingMode
      reads this
    {
      tilingMode
    }

    function GetSize(mip: nat): (int, int)
      requires mip < |mips|
      reads this
    {
      (mips[mip].sizeX, mips[mip].sizeY)
    }

    function GetRcpSize(mip: nat): (real, real)
      requires mip < |mips|
      reads this
    {
      (mips[mip].rcpSizeX, mips[mip].rcpSizeY)
    }

    function GetMipCount(): nat
      reads this
    {
      |mips|
    }

    /** TextureImpl::Load for a tiling that is the texture's own: the 4-byte
      * pattern of the float at slot From2Dto1D of the mip. The coordinate
      * must lie inside the mip and be neither sentinel. */
    function Load(tiling: TilingMode, x: int, y: int, mip: nat): (bits: nat)
      requires Valid() && tiling == tilingMode && mip < |mips|
      requires 0 <= x < mips[mip].sizeX && 0 <= y < mips[mip].sizeY
      requires x != Texture.kTexCoordBorder && y != Texture.kTexCoordBorder
      requires x != Texture.kTexCoordInvalid && y != Texture.kTexCoordInvalid
      reads this, data
      ensures bits < Pow256(4)
    {
      From2Dto1DInRange(tiling, x, y, mips[mip].sizeX, mips[mip].sizeY);
      ReadUnsigned(data[..], mips[mip].dataOffset + 4 * From2Dto1D(tiling, x, y, mips[mip].sizeX), 4)
    }

    /** After a successful Create, Load of texel (x, y) of mip k returns the
      * four bytes the caller's data hold for that texel, in either tiling. */
    lemma LoadReadsSource(desc: TextureDesc, k: nat, x: nat, y: nat)
      requires desc.mipCount <= |desc.mips| && DescValid(desc) && Created(desc) && Valid()
      requires k < desc.mipCount && x < desc.mips[k].width && y < desc.mips[k].height
      ensures k < |mips| && x < mips[k].sizeX && y < mips[k].sizeY
      ensures Load(tilingMode, x, y, k) == DecodeLE(SourceTexel(desc.mips[k], tilingMode, x, y))
    {
      var ms := desc.mips[..desc.mipCount];
      LayoutAt(ms, tilingMode, k);
      var m := desc.mips[k];
      assert ms[k] == m;
      var rec := mips[k];
      assert rec.sizeX == m.width && rec.sizeY == m.height;
      assert MipCopied(data[..], rec.dataOffset, rec.numElements, m, tilingMode);
      assert TexelCopied(data[..], rec.dataOffset, rec.numElements, m, tilingMode, x, y);
      From2Dto1DInRange(tilingMode, x, y, m.width, m.height);
      var at := rec.dataOffset + 4 * From2Dto1D(tilingMode, x, y, m.width);
      assert data[..][at..at + 4] == SourceTexel(m, tilingMode, x, y);
    }

    /** After a successful Create the accessors report the descriptor: one
      * record per mip, each mip's size and reciprocal size, and the tiling the
      * flags select. */
    lemma CreatedAccessors(desc: TextureDesc, k: nat)
      requires desc.mipCount <= |desc.mips| && DescValid(desc) && Created(desc)
      requires k < desc.mipCount
      ensures GetMipCount() == desc.mipCount
      ensures GetTilingMode() == (if desc.flags % 2 == 1 then Linear else MortonZ)
      ensures GetSize(k) == (desc.mips[k].width, desc.mips[k].height)
      ensures GetRcpSize(k) == (1.0 / (desc.mips[k].width as real), 1.0 / (desc.mips[k].height as real))
    {
      LayoutAt(desc.mips[..desc.mipCount], tilingMode, k);
      TilingForIsBitZero(desc.flags);
    }

    /** Deallocate: frees the allocation and clears the mip records. */
    method Deallocate()
      modifies this
      ensures data == null && mips == [] && tilingMode == old(tilingMode)
    {
      if data != null {
        data := null;
      }
      mips := [];
    }

    /** TextureImpl::Create. An invalid descriptor is refused before anything
      * is touched; a valid one drops the old contents, lays out the chain and,
      * for FP32 data, allocates and copies every mip. Any other format is
      * refused after mip 0's record was partly filled. */
    method Create(desc: TextureDesc) returns (r: OmmResult)
      requires desc.mipCount <= |desc.mips|
      requires DescValid(desc) && desc.format == FP32 ==> CreateFits(desc)
      modifies this
      ensures !DescValid(desc) ==>
        r == INVALID_ARGUMENT && mips == old(mips) && tilingMode == old(tilingMode) && data == old(data)
      ensures DescValid(desc) && desc.format != FP32 ==>
        r == INVALID_ARGUMENT && data == null && tilingMode == TilingFor(desc.flags) &&
        mips == [PartialMip(desc.mips[0])] + seq(desc.mipCount - 1, _ => ZeroMips)
      ensures DescValid(desc) && desc.format == FP32 ==>
        r == SUCCESS && Created(desc) && Valid() && fresh(data)
    {
      r := Validate(desc);
      if r != SUCCESS {
        return;
      }
      Deallocate();
      mips := seq(desc.mipCount, _ => ZeroMips);
      tilingMode := if BitAnd(desc.flags, DisableZOrder) != 0 then Linear else MortonZ;
      var totalSize;
      r, totalSize := LayoutMips(desc);
      if r != SUCCESS {
        return;
      }
      data := new byte[totalSize];
      CopyMips(desc);
      CreatedIsValid(desc);
    }

    /** The layout loop of Create: each mip's record, then the running total
      * grown by its bytes and aligned to kAlignment. */
    method LayoutMips(desc: TextureDesc) returns (r: OmmResult, totalSize: nat)
      requires desc.mipCount <= |desc.mips| && DescValid(desc)
      requires desc.format == FP32 ==> CreateFits(desc)
      requires tilingMode == TilingFor(desc.flags) && mips == seq(desc.mipCount, _ => ZeroMips)
      modifies this
      ensures data == old(data) && tilingMode == old(tilingMode)
      ensures desc.format != FP32 ==>
        r == INVALID_ARGUMENT && mips == [PartialMip(desc.mips[0])] + seq(desc.mipCount - 1, _ => ZeroMips)
      ensures desc.format == FP32 ==>
        r == SUCCESS && mips == Layout(desc.mips[..desc.mipCount], tilingMode) &&
        totalSize == EndOffset(desc.mips[..desc.mipCount], tilingMode)
    {
      totalSize := 0;
      var mipIt := 0;
      while mipIt < desc.mipCount
        invariant 0 <= mipIt <= desc.mipCount && |mips| == desc.mipCount
        invariant data == old(data) && tilingMode == old(tilingMode)
        invariant mipIt > 0 ==> desc.format == FP32
        invariant mips[..mipIt] == Layout(desc.mips[..mipIt], tilingMode)
        invariant mips[mipIt..] == seq(desc.mipCount - mipIt, _ => ZeroMips)
        invariant totalSize == EndOffset(desc.mips[..mipIt], tilingMode)
      {
        var m := desc.mips[mipIt];
        mips := mips[mipIt := Mips(m.width, m.height, 1.0 / (m.width as real), 1.0 / (m.height as real),
                                   m.width - 1, m.height - 1, totalSize, 0)];
        if desc.format == FP32 {
          totalSize := LayoutMip(desc, mipIt, totalSize);
        } else {
          r := INVALID_ARGUMENT;
          assert mips == [PartialMip(desc.mips[0])] + seq(desc.mipCount - 1, _ => ZeroMips);
          return;
        }
        mipIt := mipIt + 1;
      }
      r := SUCCESS;
      assert desc.mips[..desc.mipCount] == desc.mips[..mipIt];
    }

    /** The FP32 part of one pass of the layout loop: numElements for the
      * tiling, then the running total advanced past the mip and aligned. */
    method LayoutMip(desc: TextureDesc, mipIt: nat, totalSize: nat) returns (newTotal: nat)
      requires desc.mipCount <= |desc.mips| && DescValid(desc) && desc.format == FP32 && CreateFits(desc)
      requires tilingMode == TilingFor(desc.flags) && mipIt < desc.mipCount == |mips|
      requires totalSize == EndOffset(desc.mips[..mipIt], tilingMode)
      requires mips[..mipIt] == Layout(desc.mips[..mipIt], tilingMode)
      requires mips[mipIt] == MipLayout(desc.mips[mipIt], tilingMode, totalSize).(numElements := 0)
      requires mips[mipIt + 1..] == seq(desc.mipCount - mipIt - 1, _ => ZeroMips)
      modifies this
      ensures data == old(data) && tilingMode == old(tilingMode) && |mips| == desc.mipCount
      ensures mips[..mipIt + 1] == Layout(desc.mips[..mipIt + 1], tilingMode)
      ensures mips[mipIt + 1..] == seq(desc.mipCount - mipIt - 1, _ => ZeroMips)
      ensures newTotal == EndOffset(desc.mips[..mipIt + 1], tilingMode)
    {
      TilingForIsBitZero(desc.flags);
      var m := desc.mips[mipIt];
      // tilingMode was set to Linear or MortonZ just before the loop; the
      // source's third branch cannot be taken.
      var n;
      if tilingMode == Linear {
        n := m.width * m.height;
      } else {
        var maxDim := MortonSide(m.width, m.height);
        n := maxDim * maxDim;
      }
      assert n == NumElements(m.width, m.height, tilingMode);
      ghost var before := mips;
      mips := mips[mipIt := mips[mipIt].(numElements := n)];
      LayoutExtends(desc.mips, tilingMode, mipIt, totalSize, before, mips);
      newTotal := totalSize + 4 * n;
      LayoutStep(desc, tilingMode, mipIt, totalSize, newTotal);
      newTotal := Align(newTotal, kAlignment);
    }

    /** The copy loop of Create: each mip copied in the texture's tiling into
      * its slots; the copy of mip k keeps the mips before it. */
    method CopyMips(desc: TextureDesc)
      requires desc.mipCount <= |desc.mips| && DescValid(desc) && CreateFits(desc)
      requires data != null && tilingMode == TilingFor(desc.flags)
      requires mips == Layout(desc.mips[..desc.mipCount], tilingMode)
      requires data.Length == EndOffset(desc.mips[..desc.mipCount], tilingMode)
      modifies data, this
      ensures data == old(data) && tilingMode == old(tilingMode) && mips == old(mips)
      ensures Created(desc)
    {
      TilingForIsBitZero(desc.flags);
      var mipIt := 0;
      while mipIt < desc.mipCount
        invariant 0 <= mipIt <= desc.mipCount
        invariant data == old(data) && tilingMode == old(tilingMode) && mips == old(mips)
        invariant forall k :: 0 <= k < mipIt ==>
          MipValid(desc.mips[k]) && SourceCovers(desc.mips[k], tilingMode) &&
          MipCopied(data[..], mips[k].dataOffset, mips[k].numElements, desc.mips[k], tilingMode)
      {
        CopyMip(desc, mipIt);
        mipIt := mipIt + 1;
      }
    }

    /** One pass of the copy loop. */
    method CopyMip(desc: TextureDesc, mipIt: nat)
      requires desc.mipCount <= |desc.mips| && DescValid(desc) && CreateFits(desc) && mipIt < desc.mipCount
      requires data != null && tilingMode == TilingFor(desc.flags)
      requires mips == Layout(desc.mips[..desc.mipCount], tilingMode)
      requires data.Length == EndOffset(desc.mips[..desc.mipCount], tilingMode)
      requires forall k :: 0 <= k < mipIt ==>
          MipValid(desc.mips[k]) && SourceCovers(desc.mips[k], tilingMode) &&
          MipCopied(data[..], mips[k].dataOffset, mips[k].numElements, desc.mips[k], tilingMode)
      modifies data, this
      ensures data == old(data) && tilingMode == old(tilingMode) && mips == old(mips)
      ensures forall k :: 0 <= k <= mipIt ==>
          MipValid(desc.mips[k]) && SourceCovers(desc.mips[k], tilingMode) &&
          MipCopied(data[..], mips[k].dataOffset, mips[k].numElements, desc.mips[k], tilingMode)
    {
      TilingForIsBitZero(desc.flags);
      var ms := desc.mips[..desc.mipCount];
      var m := desc.mips[mipIt];
      assert ms[mipIt] == m;
      LayoutAt(ms, tilingMode, mipIt);
      LayoutPlacement(ms, tilingMode, mipIt, |ms|);
      var off := mips[mipIt].dataOffset;
      ghost var before := data[..];
      if tilingMode == Linear {
        CopyLinear(data, off, m);
      } else {
        CopyMorton(data, off, m);
        var maxDim := MortonSide(m.width, m.height);
        mips := mips[mipIt := mips[mipIt].(numElements := maxDim * maxDim)];
      }
      EarlierMipsKept(desc, before, data[..], mipIt);
    }

    /** Copying mip k (which writes only its own slots) keeps mips 0..k-1. */
    lemma EarlierMipsKept(desc: TextureDesc, before: seq<byte>, after: seq<byte>, mipIt: nat)
      requires desc.mipCount <= |desc.mips| && DescValid(desc) && CreateFits(desc) && mipIt < desc.mipCount
      requires tilingMode == TilingFor(desc.flags) && mips == Layout(desc.mips[..desc.mipCount], tilingMode)
      requires |before| == |after| == EndOffset(desc.mips[..desc.mipCount], tilingMode)
      requires mips[mipIt].dataOffset <= |after| && after[..mips[mipIt].dataOffset] == before[..mips[mipIt].dataOffset]
      requires forall k :: 0 <= k < mipIt ==>
          MipValid(desc.mips[k]) && SourceCovers(desc.mips[k], tilingMode) &&
          MipCopied(before, mips[k].dataOffset, mips[k].numElements, desc.mips[k], tilingMode)
      ensures forall k :: 0 <= k < mipIt ==>
          MipCopied(after, mips[k].dataOffset, mips[k].numElements, desc.mips[k], tilingMode)
    {
      var ms := desc.mips[..desc.mipCount];
      forall k | 0 <= k < mipIt
        ensures MipCopied(after, mips[k].dataOffset, mips[k].numElements, desc.mips[k], tilingMode)
      {
        LayoutPlacement(ms, tilingMode, k, mipIt);
        var lo := mips[k].dataOffset;
        var hi := lo + 4 * mips[k].numElements;
        KeptOutside(before, after, mips[mipIt].dataOffset, |before|, lo, hi - lo);
        MipCopiedKept(before, after, lo, mips[k].numElements, desc.mips[k], tilingMode);
      }
    }

    /** What Create builds is a valid texture. */
    lemma CreatedIsValid(desc: TextureDesc)
      requires desc.mipCount <= |desc.mips| && DescValid(desc) && Created(desc)
      ensures Valid()
    {
      var ms := desc.mips[..desc.mipCount];
      forall k | 0 <= k < |mips|
        ensures MipRecordValid(mips[k], tilingMode, data.Length)
      {
        LayoutRecordsValid(ms, tilingMode, k);
      }
    }
  }
}
