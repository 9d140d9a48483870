/** Serialization of bake inputs (SerializeResultImpl and DeserializedResultImpl
  * in omm-sdk/src/serialize_impl.cpp). A blob is a versioned header, then the
  * flags, then every ommCpuBakeInputDesc field in declaration order,
  * little-endian, with the variable-length arrays inlined behind their byte
  * counts, then the number of result descriptors. Serialize measures the blob
  * with a stream buffer that only counts, allocates exactly that many bytes
  * and writes the blob again; Deserialize reads the fields back in the same
  * order and widths. */
module Serialize {
  import opened Bits
  import opened Bytes
  import opened OmmTypes
  import opened MathUtil
  import Texture
  import Triangles
  import Parse

  type u8 = x: int | 0 <= x < 0x100
  type u32 = x: int | 0 <= x < 0x1_0000_0000

  // ---- Data ----

  /** ommSamplerDesc: the two enumerations as their 32-bit codes, borderAlpha
    * as the bit pattern of the float. */
  datatype SamplerDesc = SamplerDesc(addressingMode: u32, filter: u32, borderAlpha: u32)

  /** ommSamplerDescDefault: ommTextureAddressMode_MAX_NUM (5),
    * ommTextureFilterMode_MAX_NUM (2) and a border alpha of 0. */
  const SamplerDescDefault := SamplerDesc(5, 2, 0)

  /** ommCpuBakeInputDesc as the serializer sees it: every enumeration and
    * float field as its 32-bit pattern, each pointer as None (null) or the
    * bytes it points to. The texture handle is represented by the block its
    * TextureImpl serializes itself to. */
  datatype BakeInputDesc = BakeInputDesc(
    bakeFlags: u32,
    texture: Option<seq<byte>>,
    runtimeSamplerDesc: SamplerDesc,
    alphaMode: u32,
    texCoordFormat: u32,
    texCoords: Option<seq<byte>>,
    texCoordStrideInBytes: u32,
    indexFormat: u32,
    indexBuffer: Option<seq<byte>>,
    indexCount: u32,
    dynamicSubdivisionScale: u32,
    rejectionThreshold: u32,
    alphaCutoff: u32,
    alphaCutoffLessEqual: u32,
    alphaCutoffGreater: u32,
    format: u32,
    formats: Option<seq<byte>>,
    unknownStatePromotion: u32,
    maxSubdivisionLevel: u8,
    enableSubdivisionLevelBuffer: u8,
    subdivisionLevels: Option<seq<byte>>)

  /** ommCpuBakeInputDescDefault: no flags, no texture, the sampler default
    * (address mode and filter MAX_NUM, border alpha 0), alpha mode, texture
    * coordinate format and index format MAX_NUM, scale 2.0 and cutoff 0.5 (as
    * IEEE-754 single patterns), format OC1_4_State, promotion ForceOpaque,
    * level 8. Fields the default leaves unset are 0 here. */
  function BakeInputDescDefault(): BakeInputDesc
  {
    BakeInputDesc(0, None, SamplerDescDefault, 2, 3, None, 0, 2, None, 0,
                  0x4000_0000, 0, 0x3F00_0000, 0, 0, 2, None, 1, 8, 0, None)
  }

  /** ommCpuDeserializedDesc: the flags, the input descriptors with their
    * count, and the count of result descriptors (whose contents the SDK does
    * not serialize). */
  datatype DeserializedDesc = DeserializedDesc(flags: u32, numInputDescs: u32, inputDescs: seq<BakeInputDesc>, numResultDescs: u32)

  const DeserializedDescDefault := DeserializedDesc(0, 0, [], 0)

  /** The header: OMM_VERSION_MAJOR/MINOR/BUILD and SerializeResultImpl::VERSION. */
  const VersionMajor: nat := 1
  const VersionMinor: nat := 0
  const VersionBuild: nat := 0
  const InputDescVersion: nat := 1

  /** ommCpuSerializeFlags_Compress */
  const Compress: nat := 1

  lemma WidthLimits()
    ensures Pow256(1) == 0x100 && Pow256(4) == U32_LIMIT && Pow256(8) == U64_LIMIT
  {
    Parse.Pow256Values();
    assert Pow256(8) == Pow256(4) * Pow256(4) by {
      assert Pow256(8) == 256 * 256 * 256 * 256 * Pow256(4);
    }
  }

  function TexCoordFormatOfCode(c: nat): TexCoordFormat
  {
    if c == 0 then UV16_UNORM else if c == 1 then UV16_FLOAT else if c == 2 then UV32_FLOAT else TexCoordMAX_NUM
  }

  function IndexFormatOfCode(c: nat): IndexFormat
  {
    if c == 0 then I16_UINT else if c == 1 then I32_UINT else IndexMAX_NUM
  }

  // ---- The largest index ----

  function IndexBytes(d: BakeInputDesc): seq<byte>
  {
    if d.indexBuffer.Some? then d.indexBuffer.value else []
  }

  /** The index buffer holds the indexCount / 3 complete triangles _GetMaxIndex reads. */
  predicate IndicesReadable(d: BakeInputDesc)
  {
    3 * (d.indexCount / 3) * Parse.IndexEntryBytes(IndexFormatOfCode(d.indexFormat)) <= |IndexBytes(d)|
  }

  /** The first n entries of an index buffer, as unsigned values. */
  function Entries(indices: seq<byte>, f: IndexFormat, n: nat): (xs: seq<nat>)
    requires n * Parse.IndexEntryBytes(f) <= |indices|
    ensures |xs| == n
  {
    if n == 0 then []
    else
      MulLe(n - 1, n, Parse.IndexEntryBytes(f));
      Entries(indices, f, n - 1) + [Triangles.UnsignedIndexAt(indices, f, n - 1)]
  }

  lemma {:induction false} EntriesAt(indices: seq<byte>, f: IndexFormat, n: nat, k: nat)
    requires n * Parse.IndexEntryBytes(f) <= |indices| && k < n
    ensures (k + 1) * Parse.IndexEntryBytes(f) <= |indices|
    ensures Entries(indices, f, n)[k] == Triangles.UnsignedIndexAt(indices, f, k)
  {
    MulLe(k + 1, n, Parse.IndexEntryBytes(f));
    if k < n - 1 {
      MulLe(n - 1, n, Parse.IndexEntryBytes(f));
      EntriesAt(indices, f, n - 1, k);
    }
  }

  /** The largest of the first t triples of xs (0 when t = 0). */
  function MaxOverTriangles(xs: seq<nat>, t: nat): nat
    requires 3 * t <= |xs|
  {
    if t == 0 then 0
    else Max(Max(Max(MaxOverTriangles(xs, t - 1), xs[3 * t - 3]), xs[3 * t - 2]), xs[3 * t - 1])
  }

  /** The largest index of the first i complete triangles. */
  function MaxIndexUpTo(d: BakeInputDesc, i: nat): nat
    requires IndicesReadable(d) && i <= d.indexCount / 3
  {
    var t := d.indexCount / 3;
    MaxOverTriangles(Entries(IndexBytes(d), IndexFormatOfCode(d.indexFormat), 3 * t), i)
  }

  /** The largest index of a complete triangle. */
  function MaxIndexOf(d: BakeInputDesc): nat
    requires IndicesReadable(d)
  {
    MaxIndexUpTo(d, d.indexCount / 3)
  }

  /** MaxOverTriangles is the maximum: no entry of the first t triangles
    * exceeds it, and unless there are none, one of them equals it. */
  lemma {:induction false} MaxOverTrianglesIsMax(xs: seq<nat>, t: nat)
    requires 3 * t <= |xs|
    ensures forall k :: 0 <= k < 3 * t ==> xs[k] <= MaxOverTriangles(xs, t)
    ensures t > 0 ==> exists k :: 0 <= k < 3 * t && xs[k] == MaxOverTriangles(xs, t)
  {
    if t > 0 {
      MaxOverTrianglesIsMax(xs, t - 1);
      var m := MaxOverTriangles(xs, t);
      if m != xs[3 * t - 3] && m != xs[3 * t - 2] && m != xs[3 * t - 1] {
        assert m == MaxOverTriangles(xs, t - 1);
        var j :| 0 <= j < 3 * (t - 1) && xs[j] == MaxOverTriangles(xs, t - 1);
        assert xs[j] == m;
      }
    }
  }

  lemma TriangleInBuffer(i: nat, t: nat, w: nat, n: nat)
    requires i < t && 3 * t * w <= n
    ensures (3 * i + 3) * w <= n
  {
    MulLe(3 * i + 3, 3 * t, w);
  }

  /** Triangle i of the first t lies inside the buffer, and its entries are
    * entries 3i, 3i+1 and 3i+2 of Entries. */
  lemma TriangleAt(indices: seq<byte>, f: IndexFormat, t: nat, i: nat)
    requires 3 * t * Parse.IndexEntryBytes(f) <= |indices| && i < t
    ensures (3 * i + 3) * Parse.IndexEntryBytes(f) <= |indices|
    ensures Entries(indices, f, 3 * t)[3 * i] == Triangles.UnsignedIndexAt(indices, f, 3 * i)
    ensures Entries(indices, f, 3 * t)[3 * i + 1] == Triangles.UnsignedIndexAt(indices, f, 3 * i + 1)
    ensures Entries(indices, f, 3 * t)[3 * i + 2] == Triangles.UnsignedIndexAt(indices, f, 3 * i + 2)
  {
    TriangleInBuffer(i, t, Parse.IndexEntryBytes(f), |indices|);
    EntriesAt(indices, f, 3 * t, 3 * i);
    EntriesAt(indices, f, 3 * t, 3 * i + 1);
    EntriesAt(indices, f, 3 * t, 3 * i + 2);
  }

  /** One more triangle folded into the running maximum: triangle i lies
    * inside the buffer and its three entries extend MaxIndexUpTo. */
  lemma MaxStep(d: BakeInputDesc, i: nat)
    requires IndicesReadable(d) && i < d.indexCount / 3
    ensures (3 * i + 3) * Parse.IndexEntryBytes(IndexFormatOfCode(d.indexFormat)) <= |IndexBytes(d)|
    ensures var f := IndexFormatOfCode(d.indexFormat);
      MaxIndexUpTo(d, i + 1) == Max(Max(Max(MaxIndexUpTo(d, i),
        Triangles.UnsignedIndexAt(IndexBytes(d), f, 3 * i)),
        Triangles.UnsignedIndexAt(IndexBytes(d), f, 3 * i + 1)),
        Triangles.UnsignedIndexAt(IndexBytes(d), f, 3 * i + 2))
  {
    TriangleAt(IndexBytes(d), IndexFormatOfCode(d.indexFormat), d.indexCount / 3, i);
  }

  /** _GetMaxIndex: a running maximum over the complete triangles. */
  method GetMaxIndex(d: BakeInputDesc) returns (maxIndex: nat)
    requires IndicesReadable(d)
    ensures maxIndex == MaxIndexOf(d)
  {
    maxIndex := 0;
    var triangleCount := d.indexCount / 3;
    for i := 0 to triangleCount
      invariant maxIndex == MaxIndexUpTo(d, i)
    {
      var triangleIndices := new nat[3];
      MaxStep(d, i);
      Triangles.GetUInt32Indices(IndexFormatOfCode(d.indexFormat), IndexBytes(d), 3 * i, triangleIndices);
      maxIndex := Max(maxIndex, triangleIndices[0]);
      maxIndex := Max(maxIndex, triangleIndices[1]);
      maxIndex := Max(maxIndex, triangleIndices[2]);
    }
  }

  // ---- Sizes ----

  /** GetTexCoordFormatSize(format) * (maxIndex + 1), evaluated as the source
    * does: in 32-bit unsigned arithmetic, widened to size_t afterwards. */
  function TexCoordsSize(formatCode: nat, maxIndex: nat): (r: nat)
    ensures r < U32_LIMIT
  {
    (Texture.GetTexCoordFormatSize(TexCoordFormatOfCode(formatCode)) * ((maxIndex + 1) % U32_LIMIT)) % U32_LIMIT
  }

  /** Without wrap-around the block holds the coordinates of vertices 0..maxIndex. */
  lemma TexCoordsSizeCoversVertices(formatCode: nat, maxIndex: nat)
    requires Texture.GetTexCoordFormatSize(TexCoordFormatOfCode(formatCode)) * (maxIndex + 1) < U32_LIMIT
    ensures TexCoordsSize(formatCode, maxIndex) ==
      Texture.GetTexCoordFormatSize(TexCoordFormatOfCode(formatCode)) * (maxIndex + 1)
  {
    var s := Texture.GetTexCoordFormatSize(TexCoordFormatOfCode(formatCode));
    if s > 0 {
      MulLe(1, s, maxIndex + 1);
    }
  }

  /** The 32-bit product wraps: 2^29 vertices of UV32_FLOAT, or an index of
    * 0xFFFFFFFF in any format, give a block size of 0. */
  lemma TexCoordsSizeWraps(formatCode: nat)
    ensures TexCoordsSize(2, 0x1FFF_FFFF) == 0
    ensures TexCoordsSize(formatCode, 0xFFFF_FFFF) == 0
  {
  }

  function TexCoordsSizeOf(d: BakeInputDesc): (r: nat)
    requires IndicesReadable(d)
    ensures r < U32_LIMIT
  {
    TexCoordsSize(d.texCoordFormat, MaxIndexOf(d))
  }

  /** indexCount * (2 for 16-bit indices, else 4), in 32-bit unsigned arithmetic. */
  function IndexBufferSize(indexFormat: nat, indexCount: nat): (r: nat)
    ensures r < U32_LIMIT
  {
    (indexCount * (if indexFormat == 0 then 2 else 4)) % U32_LIMIT
  }

  /** numFormats and numSubdivLvls: indexCount when the array is present, else 0. */
  function NumFormats(d: BakeInputDesc): nat
  {
    if d.formats.None? then 0 else d.indexCount
  }

  function NumSubdivisionLevels(d: BakeInputDesc): nat
  {
    if d.subdivisionLevels.None? then 0 else d.indexCount
  }

  /** What the serializer reads from the caller's memory is there: the texture,
    * the complete triangles, and every array over the byte count it writes. */
  predicate Serializable(d: BakeInputDesc)
  {
    d.texture.Some? && |d.texture.value| < U64_LIMIT &&
    IndicesReadable(d) &&
    (TexCoordsSizeOf(d) != 0 ==> d.texCoords.Some? && TexCoordsSizeOf(d) <= |d.texCoords.value|) &&
    IndexBufferSize(d.indexFormat, d.indexCount) <= |IndexBytes(d)| &&
    (d.formats.Some? ==> 4 * d.indexCount <= |d.formats.value|) &&
    (d.subdivisionLevels.Some? ==> d.indexCount <= |d.subdivisionLevels.value|)
  }

  predicate SerializableDesc(dd: DeserializedDesc)
  {
    dd.numInputDescs == |dd.inputDescs| &&
    forall i :: 0 <= i < |dd.inputDescs| ==> Serializable(dd.inputDescs[i])
  }

  // ---- The byte layout ----
  // Each layout function gives the bytes of its part followed by `after`,
  // nested to the right in the order of the `os.write` calls, so that each
  // write or read takes the head off what is still due.

  /** Stand-in for the block TextureImpl::Serialize writes: the texture's
    * bytes behind their 8-byte length. */
  function TextureThen(tex: seq<byte>, after: seq<byte>): seq<byte>
  {
    EncodeLE(|tex|, 8) + (tex + after)
  }

  function TexCoordBytes(d: BakeInputDesc): seq<byte>
    requires Serializable(d)
  {
    if TexCoordsSizeOf(d) != 0 then d.texCoords.value[..TexCoordsSizeOf(d)] else []
  }

  function IndexBufferBytes(d: BakeInputDesc): seq<byte>
    requires Serializable(d)
  {
    IndexBytes(d)[..IndexBufferSize(d.indexFormat, d.indexCount)]
  }

  function FormatBytes(d: BakeInputDesc): seq<byte>
    requires Serializable(d)
  {
    if NumFormats(d) != 0 then d.formats.value[..4 * NumFormats(d)] else []
  }

  function SubdivisionLevelBytes(d: BakeInputDesc): seq<byte>
    requires Serializable(d)
  {
    if NumSubdivisionLevels(d) != 0 then d.subdivisionLevels.value[..NumSubdivisionLevels(d)] else []
  }

  /** bakeFlags through texCoordStrideInBytes: the texture's block in second
    * place, the coordinates behind their 8-byte size. */
  function HeadThen(d: BakeInputDesc, after: seq<byte>): seq<byte>
    requires Serializable(d)
  {
    EncodeLE(d.bakeFlags, 4) +
    TextureThen(d.texture.value,
      EncodeLE(d.runtimeSamplerDesc.addressingMode, 4) +
      (EncodeLE(d.runtimeSamplerDesc.filter, 4) +
      (EncodeLE(d.runtimeSamplerDesc.borderAlpha, 4) +
      (EncodeLE(d.alphaMode, 4) +
      (EncodeLE(d.texCoordFormat, 4) +
      (EncodeLE(TexCoordsSizeOf(d), 8) +
      (TexCoordBytes(d) +
      (EncodeLE(d.texCoordStrideInBytes, 4) + after))))))))
  }

  /** indexFormat through format: the index buffer has no size in front, its
    * size follows from the two fields before it. */
  function MiddleThen(d: BakeInputDesc, after: seq<byte>): seq<byte>
    requires Serializable(d)
  {
    EncodeLE(d.indexFormat, 4) +
    (EncodeLE(d.indexCount, 4) +
    (IndexBufferBytes(d) +
    (EncodeLE(d.dynamicSubdivisionScale, 4) +
    (EncodeLE(d.rejectionThreshold, 4) +
    (EncodeLE(d.alphaCutoff, 4) +
    (EncodeLE(d.alphaCutoffLessEqual, 4) +
    (EncodeLE(d.alphaCutoffGreater, 4) +
    (EncodeLE(d.format, 4) + after))))))))
  }

  /** The formats array through the subdivision levels, each array behind
    * its 8-byte element count. */
  function TailThen(d: BakeInputDesc, after: seq<byte>): seq<byte>
    requires Serializable(d)
  {
    EncodeLE(NumFormats(d), 8) +
    (FormatBytes(d) +
    (EncodeLE(d.unknownStatePromotion, 4) +
    (EncodeLE(d.maxSubdivisionLevel, 1) +
    (EncodeLE(NumSubdivisionLevels(d), 8) +
    (SubdivisionLevelBytes(d) + after)))))
  }

  function InputDescThen(d: BakeInputDesc, after: seq<byte>): seq<byte>
    requires Serializable(d)
  {
    HeadThen(d, MiddleThen(d, TailThen(d, after)))
  }

  /** The bytes _Serialize writes for one input descriptor. */
  function EncodeInputDesc(d: BakeInputDesc): seq<byte>
    requires Serializable(d)
  {
    InputDescThen(d, [])
  }

  /** The input descriptors ds[i..], one after the other, then `after`. */
  function InputDescsThen(ds: seq<BakeInputDesc>, i: nat, after: seq<byte>): seq<byte>
    requires i <= |ds| && forall j :: 0 <= j < |ds| ==> Serializable(ds[j])
    decreases |ds| - i
  {
    if i == |ds| then after else InputDescThen(ds[i], InputDescsThen(ds, i + 1, after))
  }

  /** The blob Serialize produces: the version header, the flags, the input
    * descriptors behind their count, and the count of result descriptors. */
  function EncodeDeserializedDesc(dd: DeserializedDesc): seq<byte>
    requires SerializableDesc(dd)
  {
    EncodeLE(VersionMajor, 4) +
    (EncodeLE(VersionMinor, 4) +
    (EncodeLE(VersionBuild, 4) +
    (EncodeLE(InputDescVersion, 4) +
    (EncodeLE(dd.flags, 4) +
    (EncodeLE(dd.numInputDescs, 4) +
    InputDescsThen(dd.inputDescs, 0, EncodeLE(dd.numResultDescs, 4)))))))
  }

  /** What reading a serialized descriptor back into prev gives: every written
    * field restored, each array cut to the bytes written, the index buffer
    * always allocated, and prev's values where nothing is written (an absent
    * array, enableSubdivisionLevelBuffer). */
  function RestoredOnto(prev: BakeInputDesc, d: BakeInputDesc): (r: BakeInputDesc)
    requires Serializable(d)
  {
    d.(texCoords := if TexCoordsSizeOf(d) != 0 then Some(TexCoordBytes(d)) else prev.texCoords,
       indexBuffer := Some(IndexBufferBytes(d)),
       formats := if NumFormats(d) != 0 then Some(FormatBytes(d)) else prev.formats,
       enableSubdivisionLevelBuffer := prev.enableSubdivisionLevelBuffer,
       subdivisionLevels := if NumSubdivisionLevels(d) != 0 then Some(SubdivisionLevelBytes(d)) else prev.subdivisionLevels)
  }

  function Restored(d: BakeInputDesc): BakeInputDesc
    requires Serializable(d)
  {
    RestoredOnto(BakeInputDescDefault(), d)
  }

  function RestoredAll(ds: seq<BakeInputDesc>): seq<BakeInputDesc>
    requires forall j :: 0 <= j < |ds| ==> Serializable(ds[j])
  {
    seq(|ds|, i requires 0 <= i < |ds| => Restored(ds[i]))
  }

  lemma RestoredAllStep(ds: seq<BakeInputDesc>, i: nat)
    requires i < |ds| && forall j :: 0 <= j < |ds| ==> Serializable(ds[j])
    ensures RestoredAll(ds[..i + 1]) == RestoredAll(ds[..i]) + [Restored(ds[i])]
  {
    var a, b := RestoredAll(ds[..i + 1]), RestoredAll(ds[..i]) + [Restored(ds[i])];
    assert forall j :: 0 <= j < i + 1 ==> a[j] == b[j];
  }

  function RestoredDesc(prev: DeserializedDesc, dd: DeserializedDesc): DeserializedDesc
    requires SerializableDesc(dd)
  {
    prev.(flags := dd.flags,
          numInputDescs := dd.numInputDescs,
          inputDescs := if dd.numInputDescs != 0 then RestoredAll(dd.inputDescs) else prev.inputDescs,
          numResultDescs := dd.numResultDescs)
  }

  // ---- Writing ----

  /** The stream buffers the serializer writes through: PassthroughStreamBuf,
    * which only counts, and MemoryStreamBuf over a fixed block, which stores
    * bytes while room remains. `log` is every byte the buffer has accepted. */
  class OutStream {
    const counting: bool
    const data: array<byte>
    var written: nat
    ghost var log: seq<byte>

    ghost predicate Valid()
      reads this, data
    {
      written == |log| && (!counting ==> written <= data.Length && data[..written] == log)
    }

    constructor Passthrough()
      ensures Valid() && counting && log == [] && fresh(data)
    {
      counting := true;
      data := new byte[0];
      written := 0;
      log := [];
    }

    constructor Memory(block: array<byte>)
      ensures Valid() && !counting && data == block && log == []
    {
      counting := false;
      data := block;
      written := 0;
      log := [];
    }

    /** sputn: a counting buffer accepts everything, a memory buffer what fits. */
    method Write(bs: seq<byte>)
      requires Valid()
      modifies this, data
      ensures Valid()
      ensures counting || old(written) + |bs| <= data.Length ==> log == old(log) + bs
      ensures !counting && old(written) + |bs| > data.Length ==> log == old(log) + bs[..data.Length - old(written)]
    {
      var k := if counting || written + |bs| <= data.Length then |bs| else data.Length - written;
      assert bs[..|bs|] == bs;
      if !counting {
        var i := 0;
        while i < k
          modifies data
          invariant 0 <= i <= k && written + k <= data.Length
          invariant data[..written + i] == log + bs[..i]
        {
          data[written + i] := bs[i];
          assert bs[..i + 1] == bs[..i] + [bs[i]];
          i := i + 1;
        }
      }
      written := written + k;
      log := log + bs[..k];
    }
  }

  ghost predicate Room(os: OutStream, n: nat)
    reads os
  {
    os.counting || os.written + n <= os.data.Length
  }

  /** An empty array writes, and reads, nothing. */
  lemma EmptyThen(s: seq<byte>)
    ensures [] + s == s && s + [] == s
  {
  }

  /** One `os.write` of bs, the next bytes due before rest. */
  method Put(os: OutStream, bs: seq<byte>, ghost rest: seq<byte>, ghost target: seq<byte>)
    requires os.Valid() && target == os.log + (bs + rest) && Room(os, |bs + rest|)
    modifies os, os.data
    ensures os.Valid() && target == os.log + rest && Room(os, |rest|)
  {
    assert os.log + (bs + rest) == (os.log + bs) + rest;
    os.Write(bs);
  }

  /** Stand-in for TextureImpl::Serialize. */
  method SerializeTexture(tex: seq<byte>, os: OutStream, ghost rest: seq<byte>, ghost target: seq<byte>)
    requires os.Valid() && target == os.log + TextureThen(tex, rest) && Room(os, |TextureThen(tex, rest)|)
    modifies os, os.data
    ensures os.Valid() && target == os.log + rest && Room(os, |rest|)
  {
    Put(os, EncodeLE(|tex|, 8), tex + rest, target);
    Put(os, tex, rest, target);
  }

  /** bakeFlags through texCoordStrideInBytes. */
  method WriteHead(d: BakeInputDesc, os: OutStream, ghost after: seq<byte>, ghost target: seq<byte>)
    requires Serializable(d) && os.Valid()
    requires target == os.log + HeadThen(d, after) && Room(os, |HeadThen(d, after)|)
    modifies os, os.data
    ensures os.Valid() && target == os.log + after && Room(os, |after|)
  {
    ghost var r9 := EncodeLE(d.texCoordStrideInBytes, 4) + after;
    ghost var r8 := TexCoordBytes(d) + r9;
    ghost var r7 := EncodeLE(TexCoordsSizeOf(d), 8) + r8;
    ghost var r6 := EncodeLE(d.texCoordFormat, 4) + r7;
    ghost var r5 := EncodeLE(d.alphaMode, 4) + r6;
    ghost var r4 := EncodeLE(d.runtimeSamplerDesc.borderAlpha, 4) + r5;
    ghost var r3 := EncodeLE(d.runtimeSamplerDesc.filter, 4) + r4;
    ghost var r2 := EncodeLE(d.runtimeSamplerDesc.addressingMode, 4) + r3;
    Put(os, EncodeLE(d.bakeFlags, 4), TextureThen(d.texture.value, r2), target);
    SerializeTexture(d.texture.value, os, r2, target);
    Put(os, EncodeLE(d.runtimeSamplerDesc.addressingMode, 4), r3, target);
    Put(os, EncodeLE(d.runtimeSamplerDesc.filter, 4), r4, target);
    Put(os, EncodeLE(d.runtimeSamplerDesc.borderAlpha, 4), r5, target);
    Put(os, EncodeLE(d.alphaMode, 4), r6, target);
    Put(os, EncodeLE(d.texCoordFormat, 4), r7, target);
    var maxIndex := GetMaxIndex(d);
    var texCoordsSize := TexCoordsSize(d.texCoordFormat, maxIndex);
    Put(os, EncodeLE(texCoordsSize, 8), r8, target);
    if texCoordsSize != 0 {
      Put(os, d.texCoords.value[..texCoordsSize], r9, target);
    } else {
      EmptyThen(r9);
    }
    Put(os, EncodeLE(d.texCoordStrideInBytes, 4), after, target);
  }

  /** indexFormat through format. */
  method WriteMiddle(d: BakeInputDesc, os: OutStream, ghost after: seq<byte>, ghost target: seq<byte>)
    requires Serializable(d) && os.Valid()
    requires target == os.log + MiddleThen(d, after) && Room(os, |MiddleThen(d, after)|)
    modifies os, os.data
    ensures os.Valid() && target == os.log + after && Room(os, |after|)
  {
    ghost var r8 := EncodeLE(d.format, 4) + after;
    ghost var r7 := EncodeLE(d.alphaCutoffGreater, 4) + r8;
    ghost var r6 := EncodeLE(d.alphaCutoffLessEqual, 4) + r7;
    ghost var r5 := EncodeLE(d.alphaCutoff, 4) + r6;
    ghost var r4 := EncodeLE(d.rejectionThreshold, 4) + r5;
    ghost var r3 := EncodeLE(d.dynamicSubdivisionScale, 4) + r4;
    ghost var r2 := IndexBufferBytes(d) + r3;
    Put(os, EncodeLE(d.indexFormat, 4), EncodeLE(d.indexCount, 4) + r2, target);
    Put(os, EncodeLE(d.indexCount, 4), r2, target);
    var indexBufferSize := IndexBufferSize(d.indexFormat, d.indexCount);
    Put(os, IndexBytes(d)[..indexBufferSize], r3, target);
    Put(os, EncodeLE(d.dynamicSubdivisionScale, 4), r4, target);
    Put(os, EncodeLE(d.rejectionThreshold, 4), r5, target);
    Put(os, EncodeLE(d.alphaCutoff, 4), r6, target);
    Put(os, EncodeLE(d.alphaCutoffLessEqual, 4), r7, target);
    Put(os, EncodeLE(d.alphaCutoffGreater, 4), r8, target);
    Put(os, EncodeLE(d.format, 4), after, target);
  }

  /** The formats array through the subdivision levels. */
  method WriteTail(d: BakeInputDesc, os: OutStream, ghost after: seq<byte>, ghost target: seq<byte>)
    requires Serializable(d) && os.Valid()
    requires target == os.log + TailThen(d, after) && Room(os, |TailThen(d, after)|)
    modifies os, os.data
    ensures os.Valid() && target == os.log + after && Room(os, |after|)
  {
    ghost var r5 := SubdivisionLevelBytes(d) + after;
    ghost var r4 := EncodeLE(NumSubdivisionLevels(d), 8) + r5;
    ghost var r3 := EncodeLE(d.maxSubdivisionLevel, 1) + r4;
    ghost var r2 := EncodeLE(d.unknownStatePromotion, 4) + r3;
    var numFormats := if d.formats.None? then 0 else d.indexCount;
    Put(os, EncodeLE(numFormats, 8), FormatBytes(d) + r2, target);
    if numFormats != 0 {
      Put(os, d.formats.value[..4 * numFormats], r2, target);
    } else {
      EmptyThen(r2);
    }
    Put(os, EncodeLE(d.unknownStatePromotion, 4), r3, target);
    Put(os, EncodeLE(d.maxSubdivisionLevel, 1), r4, target);
    var numSubdivLvls := if d.subdivisionLevels.None? then 0 else d.indexCount;
    Put(os, EncodeLE(numSubdivLvls, 8), r5, target);
    if numSubdivLvls != 0 {
      Put(os, d.subdivisionLevels.value[..numSubdivLvls], after, target);
    } else {
      EmptyThen(after);
    }
  }

  /** _Serialize of one input descriptor, followed by `after`. */
  method WriteInputDesc(d: BakeInputDesc, os: OutStream, ghost after: seq<byte>, ghost target: seq<byte>)
    requires Serializable(d) && os.Valid()
    requires target == os.log + InputDescThen(d, after) && Room(os, |InputDescThen(d, after)|)
    modifies os, os.data
    ensures os.Valid() && target == os.log + after && Room(os, |after|)
  {
    WriteHead(d, os, MiddleThen(d, TailThen(d, after)), target);
    WriteMiddle(d, os, TailThen(d, after), target);
    WriteTail(d, os, after, target);
  }

  /** The loop of _Serialize over the n input descriptors. */
  method WriteInputDescs(ds: seq<BakeInputDesc>, n: nat, os: OutStream, ghost last: seq<byte>, ghost target: seq<byte>)
    requires n == |ds| && forall j :: 0 <= j < |ds| ==> Serializable(ds[j])
    requires os.Valid() && target == os.log + InputDescsThen(ds, 0, last) && Room(os, |InputDescsThen(ds, 0, last)|)
    modifies os, os.data
    ensures os.Valid() && target == os.log + last && Room(os, |last|)
  {
    for i := 0 to n
      invariant os.Valid() && target == os.log + InputDescsThen(ds, i, last)
      invariant Room(os, |InputDescsThen(ds, i, last)|)
    {
      WriteInputDesc(ds[i], os, InputDescsThen(ds, i + 1, last), target);
    }
  }

  /** _Serialize of the whole descriptor: header, flags, the input
    * descriptors behind their count, and the result-descriptor count (the
    * result descriptors' own serializer writes nothing). */
  method WriteDeserializedDesc(dd: DeserializedDesc, os: OutStream)
    requires SerializableDesc(dd) && os.Valid() && Room(os, |EncodeDeserializedDesc(dd)|)
    modifies os, os.data
    ensures os.Valid() && os.log == old(os.log) + EncodeDeserializedDesc(dd)
  {
    ghost var target := os.log + EncodeDeserializedDesc(dd);
    ghost var last := EncodeLE(dd.numResultDescs, 4);
    ghost var r6 := InputDescsThen(dd.inputDescs, 0, last);
    ghost var r5 := EncodeLE(dd.numInputDescs, 4) + r6;
    ghost var r4 := EncodeLE(dd.flags, 4) + r5;
    ghost var r3 := EncodeLE(InputDescVersion, 4) + r4;
    ghost var r2 := EncodeLE(VersionBuild, 4) + r3;
    Put(os, EncodeLE(VersionMajor, 4), EncodeLE(VersionMinor, 4) + r2, target);
    Put(os, EncodeLE(VersionMinor, 4), r2, target);
    Put(os, EncodeLE(VersionBuild, 4), r3, target);
    Put(os, EncodeLE(InputDescVersion, 4), r4, target);
    Put(os, EncodeLE(dd.flags, 4), r5, target);
    Put(os, EncodeLE(dd.numInputDescs, 4), r6, target);
    WriteInputDescs(dd.inputDescs, dd.numInputDescs, os, last, target);
    EmptyThen(last);
    Put(os, EncodeLE(dd.numResultDescs, 4), [], target);
    EmptyThen(os.log);
  }

  /** The two passes of Serialize: a counting pass sizes the block, and a
    * second pass writes the same bytes into it, filling it exactly. */
  method CountAndWrite(desc: DeserializedDesc) returns (block: array<byte>, n: nat)
    requires SerializableDesc(desc)
    ensures fresh(block) && block[..] == EncodeDeserializedDesc(desc) && n == block.Length
  {
    var passthrough := new OutStream.Passthrough();
    WriteDeserializedDesc(desc, passthrough);
    n := passthrough.written;
    block := new byte[n];
    var buf := new OutStream.Memory(block);
    WriteDeserializedDesc(desc, buf);
    assert block[..] == block[..buf.written];
  }

  /** SerializeResultImpl: the blob descriptor it owns. */
  class SerializeResultImpl {
    var data: array?<byte>
    var size: nat

    constructor()
      ensures data == null && size == 0
    {
      data := null;
      size := 0;
    }

    /** Serialize: count, allocate exactly, write. Compression is not
      * implemented; asking for it still leaves the uncompressed blob. */
    method Serialize(desc: DeserializedDesc) returns (r: OmmResult)
      requires SerializableDesc(desc)
      modifies this
      ensures data != null && fresh(data)
      ensures data[..] == EncodeDeserializedDesc(desc) && size == data.Length
      ensures r == (if BitAnd(desc.flags, Compress) == Compress then NOT_IMPLEMENTED else SUCCESS)
    {
      var block, n := CountAndWrite(desc);
      data := block;
      size := n;
      if BitAnd(desc.flags, Compress) == Compress {
        return NOT_IMPLEMENTED;
      }
      return SUCCESS;
    }
  }

  // ---- Reading ----

  /** The read side of MemoryStreamBuf over a blob: `read` takes what is
    * left, up to the bytes asked for. */
  class InStream {
    const buf: seq<byte>
    var pos: nat

    predicate Valid()
      reads this
    {
      pos <= |buf|
    }

    constructor(blob: seq<byte>)
      ensures Valid() && buf == blob && pos == 0
    {
      buf := blob;
      pos := 0;
    }

    method Read(n: nat) returns (bs: seq<byte>)
      requires Valid()
      modifies this
      ensures Valid()
      ensures pos == (if old(pos) + n <= |buf| then old(pos) + n else |buf|)
      ensures bs == buf[old(pos)..pos]
    {
      var end := if pos + n <= |buf| then pos + n else |buf|;
      bs := buf[pos..end];
      pos := end;
    }
  }

  /** The bytes from pos up to end are rest. */
  ghost predicate Pending(buf: seq<byte>, pos: nat, end: nat, rest: seq<byte>)
  {
    pos <= end <= |buf| && buf[pos..end] == rest
  }

  lemma Take(buf: seq<byte>, pos: nat, end: nat, bs: seq<byte>, rest: seq<byte>)
    requires Pending(buf, pos, end, bs + rest)
    ensures pos + |bs| <= end && buf[pos..pos + |bs|] == bs
    ensures Pending(buf, pos + |bs|, end, rest)
  {
    assert buf[pos..pos + |bs|] == (bs + rest)[..|bs|];
    assert buf[pos + |bs|..end] == (bs + rest)[|bs|..];
  }

  /** What `read` leaves in an n-byte field that held prev when only the
    * bytes bs arrived: they replace its low-order bytes. */
  function Overlay(prev: nat, bs: seq<byte>, n: nat): (v: nat)
    requires |bs| <= n
    ensures v < Pow256(n)
    ensures |bs| == n ==> v == DecodeLE(bs)
  {
    var e := EncodeLE(prev, n);
    assert |bs| == n ==> bs + e[|bs|..] == bs;
    DecodeBound(bs + e[|bs|..]);
    DecodeLE(bs + e[|bs|..])
  }

  /** `os.read` into an n-byte field that held prev. When `on`, the bytes
    * due are those of x and then rest, and the field becomes x. */
  method ReadValue(ins: InStream, prev: nat, n: nat, ghost on: bool, ghost x: nat, ghost rest: seq<byte>,
                   ghost end: nat)
    returns (v: nat)
    requires ins.Valid()
    requires on ==> x < Pow256(n) && Pending(ins.buf, ins.pos, end, EncodeLE(x, n) + rest)
    modifies ins
    ensures ins.Valid() && v < Pow256(n)
    ensures on ==> v == x && Pending(ins.buf, ins.pos, end, rest)
  {
    if on {
      Take(ins.buf, ins.pos, end, EncodeLE(x, n), rest);
      DecodeEncode(x, n);
    }
    var bs := ins.Read(n);
    v := Overlay(prev, bs, n);
  }

  /** `os.read` into a freshly allocated block of n bytes. Bytes a short read
    * leaves unfilled are modelled as 0. */
  method ReadBlock(ins: InStream, n: nat, ghost on: bool, ghost block: seq<byte>, ghost rest: seq<byte>,
                   ghost end: nat)
    returns (bs: seq<byte>)
    requires ins.Valid()
    requires on ==> |block| == n && Pending(ins.buf, ins.pos, end, block + rest)
    modifies ins
    ensures ins.Valid() && |bs| == n
    ensures on ==> bs == block && Pending(ins.buf, ins.pos, end, rest)
  {
    if on {
      Take(ins.buf, ins.pos, end, block, rest);
    }
    var got := ins.Read(n);
    bs := got + seq(n - |got|, _ => 0);
  }

  /** Stand-in for TextureImpl::Deserialize. */
  method DeserializeTexture(ins: InStream, ghost on: bool, ghost tex: seq<byte>, ghost rest: seq<byte>,
                            ghost end: nat)
    returns (block: seq<byte>)
    requires ins.Valid()
    requires on ==> |tex| < U64_LIMIT && Pending(ins.buf, ins.pos, end, TextureThen(tex, rest))
    modifies ins
    ensures ins.Valid()
    ensures on ==> block == tex && Pending(ins.buf, ins.pos, end, rest)
  {
    WidthLimits();
    var size := ReadValue(ins, 0, 8, on, |tex|, tex + rest, end);
    block := ReadBlock(ins, size, on, tex, rest, end);
  }

  /** bakeFlags through texCoordStrideInBytes. */
  method ReadHead(ins: InStream, d: BakeInputDesc, ghost on: bool, ghost e: BakeInputDesc, ghost after: seq<byte>,
                  ghost end: nat)
    returns (r: BakeInputDesc)
    requires ins.Valid()
    requires on ==> Serializable(e) && Pending(ins.buf, ins.pos, end, HeadThen(e, after))
    modifies ins
    ensures ins.Valid()
    ensures on ==> Pending(ins.buf, ins.pos, end, after)
    ensures on ==>
      r == d.(bakeFlags := e.bakeFlags, texture := e.texture, runtimeSamplerDesc := e.runtimeSamplerDesc,
              alphaMode := e.alphaMode, texCoordFormat := e.texCoordFormat,
              texCoords := if TexCoordsSizeOf(e) != 0 then Some(TexCoordBytes(e)) else d.texCoords,
              texCoordStrideInBytes := e.texCoordStrideInBytes)
  {
    WidthLimits();
    ghost var r9, r8, r7, r6, r5, r4, r3, r2 := [], [], [], [], [], [], [], [];
    ghost var size, coords := 0, [];
    if on {
      size, coords := TexCoordsSizeOf(e), TexCoordBytes(e);
      r9 := EncodeLE(e.texCoordStrideInBytes, 4) + after;
      r8 := coords + r9;
      r7 := EncodeLE(size, 8) + r8;
      r6 := EncodeLE(e.texCoordFormat, 4) + r7;
      r5 := EncodeLE(e.alphaMode, 4) + r6;
      r4 := EncodeLE(e.runtimeSamplerDesc.borderAlpha, 4) + r5;
      r3 := EncodeLE(e.runtimeSamplerDesc.filter, 4) + r4;
      r2 := EncodeLE(e.runtimeSamplerDesc.addressingMode, 4) + r3;
    }
    r := d;
    var v := ReadValue(ins, r.bakeFlags, 4, on, e.bakeFlags, TextureThen(if on then e.texture.value else [], r2), end);
    r := r.(bakeFlags := v);
    var tex := DeserializeTexture(ins, on, if on then e.texture.value else [], r2, end);
    r := r.(texture := Some(tex));
    v := ReadValue(ins, r.runtimeSamplerDesc.addressingMode, 4, on, e.runtimeSamplerDesc.addressingMode, r3, end);
    r := r.(runtimeSamplerDesc := r.runtimeSamplerDesc.(addressingMode := v));
    v := ReadValue(ins, r.runtimeSamplerDesc.filter, 4, on, e.runtimeSamplerDesc.filter, r4, end);
    r := r.(runtimeSamplerDesc := r.runtimeSamplerDesc.(filter := v));
    v := ReadValue(ins, r.runtimeSamplerDesc.borderAlpha, 4, on, e.runtimeSamplerDesc.borderAlpha, r5, end);
    r := r.(runtimeSamplerDesc := r.runtimeSamplerDesc.(borderAlpha := v));
    v := ReadValue(ins, r.alphaMode, 4, on, e.alphaMode, r6, end);
    r := r.(alphaMode := v);
    v := ReadValue(ins, r.texCoordFormat, 4, on, e.texCoordFormat, r7, end);
    r := r.(texCoordFormat := v);
    var texCoordsSize := ReadValue(ins, 0, 8, on, size, r8, end);
    if texCoordsSize != 0 {
      var texCoords := ReadBlock(ins, texCoordsSize, on, coords, r9, end);
      r := r.(texCoords := Some(texCoords));
    } else {
      EmptyThen(r9);
    }
    v := ReadValue(ins, r.texCoordStrideInBytes, 4, on, e.texCoordStrideInBytes, after, end);
    r := r.(texCoordStrideInBytes := v);
  }

  /** indexFormat through format. */
  method ReadMiddle(ins: InStream, d: BakeInputDesc, ghost on: bool, ghost e: BakeInputDesc, ghost after: seq<byte>,
                    ghost end: nat)
    returns (r: BakeInputDesc)
    requires ins.Valid()
    requires on ==> Serializable(e) && Pending(ins.buf, ins.pos, end, MiddleThen(e, after))
    modifies ins
    ensures ins.Valid()
    ensures on ==> Pending(ins.buf, ins.pos, end, after)
    ensures on ==>
      r == d.(indexFormat := e.indexFormat, indexCount := e.indexCount, indexBuffer := Some(IndexBufferBytes(e)),
              dynamicSubdivisionScale := e.dynamicSubdivisionScale, rejectionThreshold := e.rejectionThreshold,
              alphaCutoff := e.alphaCutoff, alphaCutoffLessEqual := e.alphaCutoffLessEqual,
              alphaCutoffGreater := e.alphaCutoffGreater, format := e.format)
  {
    ghost var r8, r7, r6, r5, r4, r3, r2 := [], [], [], [], [], [], [];
    ghost var indices := [];
    if on {
      indices := IndexBufferBytes(e);
      r8 := EncodeLE(e.format, 4) + after;
      r7 := EncodeLE(e.alphaCutoffGreater, 4) + r8;
      r6 := EncodeLE(e.alphaCutoffLessEqual, 4) + r7;
      r5 := EncodeLE(e.alphaCutoff, 4) + r6;
      r4 := EncodeLE(e.rejectionThreshold, 4) + r5;
      r3 := EncodeLE(e.dynamicSubdivisionScale, 4) + r4;
      r2 := indices + r3;
    }
    WidthLimits();
    r := d;
    var v := ReadValue(ins, r.indexFormat, 4, on, e.indexFormat, EncodeLE(e.indexCount, 4) + r2, end);
    r := r.(indexFormat := v);
    v := ReadValue(ins, r.indexCount, 4, on, e.indexCount, r2, end);
    r := r.(indexCount := v);
    var indexBufferSize := IndexBufferSize(r.indexFormat, r.indexCount);
    var indexBuffer := ReadBlock(ins, indexBufferSize, on, indices, r3, end);
    r := r.(indexBuffer := Some(indexBuffer));
    v := ReadValue(ins, r.dynamicSubdivisionScale, 4, on, e.dynamicSubdivisionScale, r4, end);
    r := r.(dynamicSubdivisionScale := v);
    v := ReadValue(ins, r.rejectionThreshold, 4, on, e.rejectionThreshold, r5, end);
    r := r.(rejectionThreshold := v);
    v := ReadValue(ins, r.alphaCutoff, 4, on, e.alphaCutoff, r6, end);
    r := r.(alphaCutoff := v);
    v := ReadValue(ins, r.alphaCutoffLessEqual, 4, on, e.alphaCutoffLessEqual, r7, end);
    r := r.(alphaCutoffLessEqual := v);
    v := ReadValue(ins, r.alphaCutoffGreater, 4, on, e.alphaCutoffGreater, r8, end);
    r := r.(alphaCutoffGreater := v);
    v := ReadValue(ins, r.format, 4, on, e.format, after, end);
    r := r.(format := v);
  }

  /** The formats array through the subdivision levels. */
  method ReadTail(ins: InStream, d: BakeInputDesc, ghost on: bool, ghost e: BakeInputDesc, ghost after: seq<byte>,
                  ghost end: nat)
    returns (r: BakeInputDesc)
    requires ins.Valid()
    requires on ==> Serializable(e) && Pending(ins.buf, ins.pos, end, TailThen(e, after))
    modifies ins
    ensures ins.Valid()
    ensures on ==> Pending(ins.buf, ins.pos, end, after)
    ensures on ==>
      r == d.(formats := if NumFormats(e) != 0 then Some(FormatBytes(e)) else d.formats,
              unknownStatePromotion := e.unknownStatePromotion, maxSubdivisionLevel := e.maxSubdivisionLevel,
              subdivisionLevels := if NumSubdivisionLevels(e) != 0 then Some(SubdivisionLevelBytes(e)) else d.subdivisionLevels)
  {
    ghost var r5, r4, r3, r2 := [], [], [], [];
    ghost var nf, fs, nl, ls := 0, [], 0, [];
    if on {
      nf, fs, nl, ls := NumFormats(e), FormatBytes(e), NumSubdivisionLevels(e), SubdivisionLevelBytes(e);
      r5 := ls + after;
      r4 := EncodeLE(nl, 8) + r5;
      r3 := EncodeLE(e.maxSubdivisionLevel, 1) + r4;
      r2 := EncodeLE(e.unknownStatePromotion, 4) + r3;
    }
    WidthLimits();
    r := d;
    var numFormats := ReadValue(ins, 0, 8, on, nf, fs + r2, end);
    if numFormats != 0 {
      var formats := ReadBlock(ins, numFormats * 4, on, fs, r2, end);
      r := r.(formats := Some(formats));
    } else {
      EmptyThen(r2);
    }
    var v := ReadValue(ins, r.unknownStatePromotion, 4, on, e.unknownStatePromotion, r3, end);
    r := r.(unknownStatePromotion := v);
    v := ReadValue(ins, r.maxSubdivisionLevel, 1, on, e.maxSubdivisionLevel, r4, end);
    r := r.(maxSubdivisionLevel := v);
    var numSubdivLvls := ReadValue(ins, 0, 8, on, nl, r5, end);
    if numSubdivLvls != 0 {
      var subdivisionLevels := ReadBlock(ins, numSubdivLvls, on, ls, after, end);
      r := r.(subdivisionLevels := Some(subdivisionLevels));
    } else {
      EmptyThen(after);
    }
  }

  /** _Deserialize of one input descriptor into d. When `on`, the bytes due
    * are the encoding of e and then `after`. */
  method ReadInputDesc(ins: InStream, d: BakeInputDesc, ghost on: bool, ghost e: BakeInputDesc,
                       ghost after: seq<byte>, ghost end: nat)
    returns (r: BakeInputDesc)
    requires ins.Valid()
    requires on ==> Serializable(e) && Pending(ins.buf, ins.pos, end, InputDescThen(e, after))
    modifies ins
    ensures ins.Valid()
    ensures on ==> r == RestoredOnto(d, e) && Pending(ins.buf, ins.pos, end, after)
  {
    ghost var tail := if on then TailThen(e, after) else [];
    ghost var middle := if on then MiddleThen(e, tail) else [];
    r := ReadHead(ins, d, on, e, middle, end);
    r := ReadMiddle(ins, r, on, e, tail, end);
    r := ReadTail(ins, r, on, e, after, end);
  }

  /** The loop of _Deserialize over the n input descriptors, each read into
    * a default descriptor. */
  method ReadInputDescs(ins: InStream, n: nat, ghost on: bool, ghost ds: seq<BakeInputDesc>, ghost last: seq<byte>,
                        ghost end: nat)
    returns (inputDescs: seq<BakeInputDesc>)
    requires ins.Valid()
    requires on ==> n == |ds| && (forall j :: 0 <= j < |ds| ==> Serializable(ds[j]))
    requires on ==> Pending(ins.buf, ins.pos, end, InputDescsThen(ds, 0, last))
    modifies ins
    ensures ins.Valid() && |inputDescs| == n
    ensures on ==> inputDescs == RestoredAll(ds) && Pending(ins.buf, ins.pos, end, last)
  {
    inputDescs := [];
    for i := 0 to n
      invariant ins.Valid() && |inputDescs| == i
      invariant on ==> Pending(ins.buf, ins.pos, end, InputDescsThen(ds, i, last))
      invariant on ==> inputDescs == RestoredAll(ds[..i])
    {
      ghost var di := if on then ds[i] else BakeInputDescDefault();
      ghost var rest := if on then InputDescsThen(ds, i + 1, last) else [];
      var d := ReadInputDesc(ins, BakeInputDescDefault(), on, di, rest, end);
      if on {
        RestoredAllStep(ds, i);
      }
      inputDescs := inputDescs + [d];
    }
    if on {
      assert ds[..n] == ds;
    }
  }

  /** _Deserialize of the whole descriptor, in place over desc. The header is
    * read and not checked; each input descriptor starts from the default. */
  method ReadDeserializedDesc(ins: InStream, desc: DeserializedDesc, ghost e: DeserializedDesc, ghost end: nat)
    returns (r: DeserializedDesc)
    requires ins.Valid()
    modifies ins
    ensures ins.Valid()
    ensures SerializableDesc(e) && Pending(ins.buf, old(ins.pos), end, EncodeDeserializedDesc(e)) ==>
      r == RestoredDesc(desc, e)
  {
    WidthLimits();
    ghost var on := SerializableDesc(e) && Pending(ins.buf, ins.pos, end, EncodeDeserializedDesc(e));
    ghost var last := EncodeLE(e.numResultDescs, 4);
    ghost var r6, r5, r4, r3, r2 := [], [], [], [], [];
    if on {
      r6 := InputDescsThen(e.inputDescs, 0, last);
      r5 := EncodeLE(e.numInputDescs, 4) + r6;
      r4 := EncodeLE(e.flags, 4) + r5;
      r3 := EncodeLE(InputDescVersion, 4) + r4;
      r2 := EncodeLE(VersionBuild, 4) + r3;
    }
    var major := ReadValue(ins, 0, 4, on, VersionMajor, EncodeLE(VersionMinor, 4) + r2, end);
    var minor := ReadValue(ins, 0, 4, on, VersionMinor, r2, end);
    var patch := ReadValue(ins, 0, 4, on, VersionBuild, r3, end);
    var inputDescVersion := ReadValue(ins, 0, 4, on, InputDescVersion, r4, end);
    var v := ReadValue(ins, desc.flags, 4, on, e.flags, r5, end);
    r := desc.(flags := v);
    v := ReadValue(ins, desc.numInputDescs, 4, on, e.numInputDescs, r6, end);
    r := r.(numInputDescs := v);
    if r.numInputDescs != 0 {
      var inputDescs := ReadInputDescs(ins, r.numInputDescs, on, e.inputDescs, last, end);
      r := r.(inputDescs := inputDescs);
    }
    EmptyThen(last);
    v := ReadValue(ins, desc.numResultDescs, 4, on, e.numResultDescs, [], end);
    r := r.(numResultDescs := v);
  }

  /** DeserializedResultImpl: the descriptor it owns. */
  class DeserializedResultImpl {
    var inputDesc: DeserializedDesc

    constructor()
      ensures inputDesc == DeserializedDescDefault
    {
      inputDesc := DeserializedDescDefault;
    }

    /** Deserialize of an ommCpuBlobDesc (data, size): null data or a zero
      * size is refused; otherwise the blob is read, and a blob Serialize made
      * from `expected` gives back everything it wrote. */
    method Deserialize(data: Option<seq<byte>>, size: nat, ghost expected: DeserializedDesc) returns (r: OmmResult)
      requires data.Some? ==> size <= |data.value|
      modifies this
      ensures data.None? || size == 0 ==> r == INVALID_ARGUMENT && inputDesc == old(inputDesc)
      ensures data.Some? && size != 0 ==> r == SUCCESS
      ensures data.Some? && SerializableDesc(expected) && data.value[..size] == EncodeDeserializedDesc(expected) ==>
        inputDesc == RestoredDesc(old(inputDesc), expected)
    {
      if data.None? {
        return INVALID_ARGUMENT;
      }
      if size == 0 {
        if SerializableDesc(expected) {
          assert |EncodeLE(VersionMajor, 4)| == 4;
        }
        return INVALID_ARGUMENT;
      }
      var ins := new InStream(data.value[..size]);
      assert ins.buf[0..|ins.buf|] == ins.buf;
      inputDesc := ReadDeserializedDesc(ins, inputDesc, expected, |ins.buf|);
      return SUCCESS;
    }
  }
}
