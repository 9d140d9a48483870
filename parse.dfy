/** Decoding of a bake result (shared/shared/parse.h): reading the index
  * buffer, the special negative indices, the bit size of a micromap and the
  * unpacking of its 1-bit (2-state) or 2-bit (4-state) micro-triangle states. */
module Parse {
  import opened Bits
  import opened Bytes
  import opened OmmTypes

  /** Width in bytes of one index-buffer entry as it is read: int16 for
    * I16_UINT, int32 for every other format. */
  function IndexEntryBytes(f: IndexFormat): (w: nat)
    ensures w == 2 || w == 4
    ensures f == I16_UINT <==> w == 2
  {
    if f == I16_UINT then 2 else 4
  }

  /** Entry i lies inside the index buffer. */
  predicate IndexReadable(res: BakeResultDesc, i: nat)
  {
    i * IndexEntryBytes(res.indexFormat) + IndexEntryBytes(res.indexFormat) <= |res.indexBuffer|
  }

  lemma Pow256Values()
    ensures Pow256(2) == 0x1_0000 && Pow256(4) == 0x1_0000_0000
  {
    assert Pow256(2) == 256 * Pow256(1);
    assert Pow256(4) == 256 * Pow256(3);
  }

  /** The range of a signed entry of the given format. */
  predicate FitsIndexFormat(x: int, f: IndexFormat)
  {
    if f == I16_UINT then -0x8000 <= x < 0x8000 else -0x8000_0000 <= x < 0x8000_0000
  }

  /** Entry i of the index buffer, read as a signed 16-bit integer for
    * I16_UINT and as a signed 32-bit integer otherwise. */
  function GetOmmIndexForTriangleIndex(res: BakeResultDesc, i: nat): (r: int)
    requires IndexReadable(res, i)
    ensures FitsIndexFormat(r, res.indexFormat)
    ensures r % Pow256(IndexEntryBytes(res.indexFormat))
         == ReadUnsigned(res.indexBuffer, IndexEntryBytes(res.indexFormat) * i, IndexEntryBytes(res.indexFormat))
  {
    var w := IndexEntryBytes(res.indexFormat);
    Pow256Values();
    AsSigned(ReadUnsigned(res.indexBuffer, w * i, w), w)
  }

  /** The bit patterns of `xs` as w-byte two's-complement values. */
  function Patterns(xs: seq<int>, w: nat): (ps: seq<nat>)
    ensures |ps| == |xs|
    ensures forall k :: 0 <= k < |xs| ==> ps[k] == xs[k] % Pow256(w)
  {
    if |xs| == 0 then [] else [xs[0] % Pow256(w)] + Patterns(xs[1..], w)
  }

  /** The bytes of an index buffer holding `indices` in format f. */
  function EncodeIndexBuffer(indices: seq<int>, f: IndexFormat): (buf: seq<byte>)
    ensures |buf| == IndexEntryBytes(f) * |indices|
  {
    EncodeAll(Patterns(indices, IndexEntryBytes(f)), IndexEntryBytes(f))
  }

  /** Reading entry i of an encoded index buffer gives index i back. */
  lemma IndexBufferRoundTrip(res: BakeResultDesc, indices: seq<int>, i: nat)
    requires res.indexBuffer == EncodeIndexBuffer(indices, res.indexFormat)
    requires i < |indices| && FitsIndexFormat(indices[i], res.indexFormat)
    ensures IndexReadable(res, i)
    ensures GetOmmIndexForTriangleIndex(res, i) == indices[i]
  {
    var w := IndexEntryBytes(res.indexFormat);
    var ps := Patterns(indices, w);
    PackedEntry(ps, w, i);
    Pow256Values();
    AsSignedOfPattern(indices[i], w);
  }

  /** bird::GetNumMicroTriangles, and the count `1u << (level << 1)`: 4^level. */
  function NumMicroTriangles(level: nat): (n: nat)
    ensures n >= 1
  {
    Pow2(2 * level)
  }

  /** GetOmmBitSize as written: 2 for the 2-state format and 4 otherwise,
    * times 4^level, multiplied as uint32 and returned as int32. */
  function GetOmmBitSize(desc: MicromapDesc): (r: int)
    ensures -0x8000_0000 <= r < 0x8000_0000
  {
    var bitSize := if desc.format == FormatCode(OC1_2_State) then 2 else 4;
    Pow256Values();
    AsSigned((bitSize * NumMicroTriangles(desc.subdivisionLevel)) % U32_LIMIT, 4)
  }

  /** Bits per micro-triangle state: 1 for the 2-state format, 2 for any other. */
  function BitsPerState(format: nat): (b: nat)
    ensures b == 1 || b == 2
    ensures b == 1 <==> format == FormatCode(OC1_2_State)
  {
    if format == FormatCode(OC1_2_State) then 1 else 2
  }

  /** The number of bits a micromap occupies: one state for each of its
    * 4^level micro-triangles. */
  function OmmBitSize(desc: MicromapDesc): (bits: nat)
    ensures bits == BitsPerState(desc.format) * NumMicroTriangles(desc.subdivisionLevel)
    ensures bits >= BitsPerState(desc.format)
  {
    MulAtLeast(NumMicroTriangles(desc.subdivisionLevel), BitsPerState(desc.format));
    BitsPerState(desc.format) * NumMicroTriangles(desc.subdivisionLevel)
  }

  /** Up to level 14 the uint32 product does not wrap, and GetOmmBitSize is
    * twice the bits the micromap occupies, in either format. */
  lemma GetOmmBitSizeAsWritten(desc: MicromapDesc)
    requires desc.subdivisionLevel <= 14
    ensures GetOmmBitSize(desc) == 2 * OmmBitSize(desc)
  {
    var n := NumMicroTriangles(desc.subdivisionLevel);
    MicroTrianglesUpToLevel14(desc.subdivisionLevel);
    var bitSize := if desc.format == FormatCode(OC1_2_State) then 2 else 4;
    Int32OfSmall(bitSize * n);
  }

  lemma MicroTrianglesUpToLevel14(level: nat)
    requires level <= 14
    ensures NumMicroTriangles(level) <= 0x1000_0000
  {
    Pow2Grows(2 * level, 28);
    Pow2Of32();
    assert Pow2(32) == 16 * Pow2(28);
  }

  lemma Int32OfSmall(u: nat)
    requires u < 0x8000_0000
    ensures u % U32_LIMIT < Pow256(4)
    ensures AsSigned(u % U32_LIMIT, 4) == u
  {
    Pow256Values();
    DivModUnique(u, U32_LIMIT, 0, u);
  }

  /** A 2-state micromap of level 0 holds one bit, but GetOmmBitSize reports two. */
  lemma GetOmmBitSizeTwoStateLevelZero()
    ensures OmmBitSize(MicromapDesc(0, 0, FormatCode(OC1_2_State))) == 1
    ensures GetOmmBitSize(MicromapDesc(0, 0, FormatCode(OC1_2_State))) == 2
  {
    GetOmmBitSizeAsWritten(MicromapDesc(0, 0, FormatCode(OC1_2_State)));
  }

  /** Bytes that hold `bits` bits. */
  function BytesForBits(bits: nat): nat
  {
    (bits + 7) / 8
  }

  /** State i of a micromap whose bits start at byte `offset`: the `bps`
    * bits that start at bit i*bps of its bit stream, where stream bit k is
    * bit k % 8 (least significant first) of byte k / 8. */
  function StateAt(data: seq<byte>, offset: nat, bps: nat, i: nat): (s: nat)
    requires offset + (i * bps) / 8 < |data|
    ensures s < Pow2(bps)
  {
    var bit := i * bps;
    (data[offset + bit / 8] / Pow2(bit % 8)) % Pow2(bps)
  }

  /** `states` are the first |states| states of the micromap at `offset`. */
  predicate Decodes(states: seq<int>, data: seq<byte>, offset: nat, bps: nat)
  {
    forall i :: 0 <= i < |states| ==>
      offset + (i * bps) / 8 < |data| && states[i] == StateAt(data, offset, bps, i)
  }

  /** The bit stream of `states`, `bps` bits each, first state lowest. */
  function PackValue(states: seq<nat>, bps: nat): nat
  {
    if |states| == 0 then 0 else states[0] + Pow2(bps) * PackValue(states[1..], bps)
  }

  /** The array data of a micromap holding `states`: its bit stream in
    * as many bytes as the bits need. */
  function PackStates(states: seq<nat>, bps: nat): (data: seq<byte>)
    ensures |data| == BytesForBits(|states| * bps)
  {
    EncodeLE(PackValue(states, bps), BytesForBits(|states| * bps))
  }

  predicate StatesFit(states: seq<nat>, bps: nat)
  {
    forall k :: 0 <= k < |states| ==> states[k] < Pow2(bps)
  }

  lemma {:induction false} PackValueDigit(states: seq<nat>, bps: nat, i: nat)
    requires i < |states| && StatesFit(states, bps)
    ensures (PackValue(states, bps) / Pow2(i * bps)) % Pow2(bps) == states[i]
  {
    var v := PackValue(states, bps);
    var rest := PackValue(states[1..], bps);
    DivModUnique(v, Pow2(bps), rest, states[0]);
    if i > 0 {
      assert StatesFit(states[1..], bps) by {
        forall k | 0 <= k < |states| - 1 ensures states[1..][k] < Pow2(bps) {
          assert states[1..][k] == states[k + 1];
        }
      }
      PackValueDigit(states[1..], bps, i - 1);
      Pow2Add(bps, (i - 1) * bps);
      assert i * bps == bps + (i - 1) * bps;
      DivDiv(v, Pow2(bps), Pow2((i - 1) * bps));
    }
  }

  /** `w` bits at bit s of byte j of a little-endian image are the `w` bits
    * at bit 8j+s of the number, when they stay inside that byte. */
  lemma DigitOfByte(v: nat, n: nat, j: nat, s: nat, w: nat)
    requires j < n && s + w <= 8
    ensures (EncodeLE(v, n)[j] / Pow2(s)) % Pow2(w) == (v / Pow2(8 * j + s)) % Pow2(w)
  {
    EncodeLEByte(v, n, j);
    var x := v / Pow2(8 * j);
    assert Pow2(8) == 256;
    Pow2Add(s, 8 - s);
    DivDiv(x, Pow2(s), Pow2(8 - s));
    Pow2Divides(w, 8 - s);
    ModOfMod(x / Pow2(s), Pow2(8 - s), Pow2(w));
    Pow2Add(8 * j, s);
    DivDiv(v, Pow2(8 * j), Pow2(s));
  }

  /** State i of n lies in the first BytesForBits(n * bps) bytes, and its
    * bits do not cross a byte boundary. */
  lemma StateInByte(i: nat, n: nat, bps: nat)
    requires i < n && (bps == 1 || bps == 2)
    ensures (i * bps) / 8 < BytesForBits(n * bps)
    ensures (i * bps) % 8 + bps <= 8
    ensures 8 * ((i * bps) / 8) + (i * bps) % 8 == i * bps
  {
    assert i * bps + bps <= n * bps;
    if bps == 2 {
      DivModUnique(2 * i, 8, i / 4, 2 * (i % 4));
    }
  }

  /** Unpacking state i of packed states gives state i back. */
  lemma PackStatesRoundTrip(states: seq<nat>, bps: nat, i: nat)
    requires (bps == 1 || bps == 2) && i < |states| && StatesFit(states, bps)
    ensures (i * bps) / 8 < |PackStates(states, bps)|
    ensures StateAt(PackStates(states, bps), 0, bps, i) == states[i]
  {
    var bit := i * bps;
    StateInByte(i, |states|, bps);
    DigitOfByte(PackValue(states, bps), BytesForBits(|states| * bps), bit / 8, bit % 8, bps);
    PackValueDigit(states, bps, i);
  }

  /** The states of a micromap, packed, take BytesForBits(OmmBitSize) bytes
    * and unpack to the same states. */
  lemma MicromapRoundTrip(desc: MicromapDesc, states: seq<nat>)
    requires |states| == NumMicroTriangles(desc.subdivisionLevel)
    requires StatesFit(states, BitsPerState(desc.format))
    ensures |PackStates(states, BitsPerState(desc.format))| == BytesForBits(OmmBitSize(desc))
    ensures Decodes(states, PackStates(states, BitsPerState(desc.format)), 0, BitsPerState(desc.format))
  {
    var bps := BitsPerState(desc.format);
    forall i | 0 <= i < |states|
      ensures (i * bps) / 8 < |PackStates(states, bps)|
      ensures states[i] == StateAt(PackStates(states, bps), 0, bps, i)
    {
      PackStatesRoundTrip(states, bps, i);
    }
  }

  /** Decoding reads only the micromap's own bytes: what the packed states
    * decode to, they decode to wherever they are placed. */
  lemma DecodesPlaced(states: seq<int>, packed: seq<byte>, data: seq<byte>, offset: nat, bps: nat)
    requires Decodes(states, packed, 0, bps)
    requires offset + |packed| <= |data| && data[offset..offset + |packed|] == packed
    ensures Decodes(states, data, offset, bps)
  {
    forall i | 0 <= i < |states|
      ensures offset + (i * bps) / 8 < |data| && states[i] == StateAt(data, offset, bps, i)
    {
      assert data[offset + (i * bps) / 8] == packed[(i * bps) / 8];
    }
  }

  /** The source's shift-and-mask read of a 2-state value (bit i & 7 of
    * byte i >> 3) is the StateAt read. */
  lemma ShiftMaskTwoState(v: nat, i: nat)
    ensures i / Pow2(3) == (i * 1) / 8
    ensures BitAnd(v / Pow2(BitAnd(i, 7)), 1) == (v / Pow2((i * 1) % 8)) % Pow2(1)
  {
    assert Pow2(3) == 8;
    AndLowMask(i, 3);
    AndLowMask(v / Pow2(i % 8), 1);
  }

  /** The source's shift-and-mask read of a 4-state value (the two bits at
    * (i << 1) & 7 of byte i >> 2) is the StateAt read. */
  lemma ShiftMaskFourState(v: nat, i: nat)
    ensures i / Pow2(2) == (i * 2) / 8
    ensures BitAnd(v / Pow2(BitAnd(i * 2, 7)), 3) == (v / Pow2((i * 2) % 8)) % Pow2(2)
  {
    var j := i * 2;
    assert Pow2(3) == 8;
    AndLowMask(j, 3);
    AndLowMask(v / Pow2(j % 8), 2);
    DivModUnique(j, 8, i / 4, 2 * (i % 4));
  }

  /** The micromap that entry `idx` refers to can be read: its descriptor
    * exists and, when states are wanted, the output array has room for all
    * of them and the array data holds all of its bits. */
  predicate MicromapReadable(res: BakeResultDesc, idx: int, outStates: array?<int>)
  {
    0 <= idx < |res.descArray| &&
    (outStates != null ==>
      outStates.Length >= NumMicroTriangles(res.descArray[idx].subdivisionLevel) &&
      res.descArray[idx].offset + BytesForBits(OmmBitSize(res.descArray[idx])) <= |res.arrayData|)
  }

  /** The loop of GetTriangleStates: writes the first n states of the
    * micromap at `offset` into `outStates`, with the source's shifts and masks. */
  method UnpackStates(data: seq<byte>, offset: nat, format: nat, n: nat, outStates: array<int>)
    requires outStates.Length >= n
    requires offset + BytesForBits(n * BitsPerState(format)) <= |data|
    modifies outStates
    ensures Decodes(outStates[..n], data, offset, BitsPerState(format))
    ensures outStates[n..] == old(outStates[n..])
  {
    ghost var bps := BitsPerState(format);
    var i := 0;
    while i < n
      invariant 0 <= i <= n
      invariant Decodes(outStates[..i], data, offset, bps)
      invariant forall k :: i <= k < outStates.Length ==> outStates[k] == old(outStates[k])
    {
      var state := ReadState(data, offset, format, n, i);
      ghost var before := outStates[..];
      outStates[i] := state;
      DecodesAfterWrite(before, outStates[..], i, state, data, offset, bps);
      i := i + 1;
    }
    assert outStates[n..] == old(outStates[n..]);
  }

  /** One step of that loop: state i is bits (i & 7) of byte i >> 3 in the
    * 2-state format and bits ((i << 1) & 7) .. +1 of byte i >> 2 in the
    * 4-state one, which is the StateAt read. */
  method ReadState(data: seq<byte>, offset: nat, format: nat, n: nat, i: nat) returns (state: nat)
    requires i < n && offset + BytesForBits(n * BitsPerState(format)) <= |data|
    ensures offset + (i * BitsPerState(format)) / 8 < |data|
    ensures state == StateAt(data, offset, BitsPerState(format), i)
  {
    var is2State: nat := if format == FormatCode(OC1_2_State) then 1 else 0;
    ghost var bps := BitsPerState(format);
    StateInByte(i, n, bps);
    ShiftMaskTwoState(0, i);
    ShiftMaskFourState(0, i);
    var byteIndex := i / Pow2(2 + is2State);
    var v := data[offset + byteIndex];
    if is2State == 1 {
      ShiftMaskTwoState(v, i);
      state := BitAnd(v / Pow2(BitAnd(i, 7)), 1);
    } else {
      ShiftMaskFourState(v, i);
      state := BitAnd(v / Pow2(BitAnd(i * 2, 7)), 3);
    }
  }

  /** Writing state i after states 0..i-1 extends the decoded prefix by one. */
  lemma DecodesAfterWrite(before: seq<int>, after: seq<int>, i: nat, s: int, data: seq<byte>, offset: nat, bps: nat)
    requires i < |before| && after == before[i := s]
    requires Decodes(before[..i], data, offset, bps)
    requires offset + (i * bps) / 8 < |data| && s == StateAt(data, offset, bps, i)
    ensures Decodes(after[..i + 1], data, offset, bps)
  {
    DecodesSnoc(before[..i], s, data, offset, bps);
    assert after[..i + 1] == before[..i] + [s];
  }

  lemma DecodesSnoc(states: seq<int>, s: int, data: seq<byte>, offset: nat, bps: nat)
    requires Decodes(states, data, offset, bps)
    requires offset + (|states| * bps) / 8 < |data| && s == StateAt(data, offset, bps, |states|)
    ensures Decodes(states + [s], data, offset, bps)
  {
    var t := states + [s];
    forall i | 0 <= i < |t|
      ensures offset + (i * bps) / 8 < |data| && t[i] == StateAt(data, offset, bps, i)
    {
      if i < |states| {
        assert t[i] == states[i];
      }
    }
  }

  /** The states of triangle `triangleIdx`. A special (negative) index
    * yields level 0 and the single state ~index; any other index yields the
    * micromap's level and, when `outStates` is not null, its 4^level states. */
  method GetTriangleStates(triangleIdx: nat, res: BakeResultDesc, outStates: array?<int>) returns (level: int)
    requires IndexReadable(res, triangleIdx)
    requires GetOmmIndexForTriangleIndex(res, triangleIdx) < 0 && outStates != null ==> outStates.Length >= 1
    requires GetOmmIndexForTriangleIndex(res, triangleIdx) >= 0 ==>
      MicromapReadable(res, GetOmmIndexForTriangleIndex(res, triangleIdx), outStates)
    modifies outStates
    ensures var idx := GetOmmIndexForTriangleIndex(res, triangleIdx);
      idx < 0 ==> level == 0 && (outStates != null ==> outStates[..] == old(outStates[..])[0 := -idx - 1])
    ensures var idx := GetOmmIndexForTriangleIndex(res, triangleIdx);
      idx >= 0 ==> var desc := res.descArray[idx];
        var n := NumMicroTriangles(desc.subdivisionLevel);
        level == desc.subdivisionLevel &&
        (outStates != null ==>
          Decodes(outStates[..n], res.arrayData, desc.offset, BitsPerState(desc.format)) &&
          outStates[n..] == old(outStates[n..]))
  {
    var vmIdx := GetOmmIndexForTriangleIndex(res, triangleIdx);
    if vmIdx < 0 {
      if outStates != null {
        outStates[0] := -vmIdx - 1;
      }
      return 0;
    }
    var desc := res.descArray[vmIdx];
    var numMicroTriangles := Pow2(2 * desc.subdivisionLevel);
    if outStates != null {
      UnpackStates(res.arrayData, desc.offset, desc.format, numMicroTriangles, outStates);
    }
    return desc.subdivisionLevel;
  }

  /** The four special indices name, through ~index, the four opacity states. */
  lemma SpecialIndexStates()
    ensures StateOfCode(-FullyTransparent - 1) == Transparent
    ensures StateOfCode(-FullyOpaque - 1) == Opaque
    ensures StateOfCode(-FullyUnknownTransparent - 1) == UnknownTransparent
    ensures StateOfCode(-FullyUnknownOpaque - 1) == UnknownOpaque
  {
  }
}
