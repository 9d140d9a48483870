# Opacity-MicroMap SDK core, modelled in Dafny

This project models the integer, bit-level and byte-layout core of the NVIDIA
Opacity-MicroMap (OMM) SDK, and proves properties of that model. It also
models the two Python scripts that generate the SDK's public headers.

## Header generators

`_interface_gen_c.py` and `_interface_gen_cpp.py` read one schema: a
dictionary of namespaces, enums, structs, functions and typedefs, plus a
`layout` order. They print the same API twice:

- **C header.** Namespace names are concatenated into every identifier. Each
  struct that has a member with a default value gets an `<Name>Default()`
  factory.
- **C++ header.** Declarations are nested in their namespaces. Every type a
  member or a parameter refers to is qualified only by the namespaces the
  referring declaration lacks.

The model is split across three modules:

- `Schema` holds the parsed schema, the namespace-path table that both
  scripts build (`BuildTypeToPrefix`) and both naming rules.
- `CHeaderGen` and `CppHeaderGen` hold the emitters.

Each emitter is a method that prints to `TextFormat.Stdout`, the scripts'
redirected standard output, one line per printed line. Each is proved to
print exactly the lines of a function of its inputs. Lemmas about those
functions state the layout that the generated `omm.h` and `omm.hpp` show:

- enum values and struct members aligned in columns;
- default values translated;
- flag macros;
- blank lines between values;
- qualification of names.

## Runtime

The runtime modules follow the source files:

| module | source | what it models |
|---|---|---|
| `OmmTypes` | omm.h | the enumerations |
| `BitTricks` | bit_tricks.h | `nextPow2`, `isPow2`, `ctz_slow`, Morton interleave and de-interleave, on `bv32` |
| `Words` and `Bits` | — | what ties 32-bit words to numbers |
| `MathUtil` | math.h | `Align`, `DivUp` at 64 bits |
| `Texture` | texture.h | the five address modes, `GatherTexCoord4`, the coordinate-format sizes |
| `Parse` | parse.h | index-buffer reads, special indices, micromap bit sizes, state unpacking |
| `Triangles` | triangle.h | the vertex record and its box, half-float bits, strided reads, index widening |
| `BakeKernels` | bake_kernels_cpu.h | `GetStateFromCoverage` |
| `CpuTexture` | texture_impl | `TextureImpl`: validation, the mip layout, linear and Morton copies, `Load` |
| `Serialize` | serialize_impl.cpp | the two-pass serializer and the deserializer |
| `Bytes` | — | the little-endian field encoding `Serialize` uses |
| `BakeResult` | bake_cpu_impl.h | `Finalize` and `GetBakeResultDesc` |
| `BakeApi` | bake.cpp | the entry points' handle tagging and argument checks |
| `Histogram` | omm_histogram.cpp | the histogram validators of the test utilities |

Objects that the source changes in place are classes whose methods name
what they modify. The classes include `TextureImpl`, the two stream buffers,
the result objects, the path tables and the output stream. Pure routines
are functions.

## Where the model reads the source closely

- The C++ generator renders an enum-value default `{"type": t, "value": v}`
  as `t::v`. The `t` here is the object's own `"type"` field, not the
  member's type key.
- The C generator looks up the prefix of a struct or typedef by its name,
  not by its key.
- The C generator writes a parameter's type as its key behind the key's
  prefix, not as the declaration's name.
- `TextureImpl::Create` takes a `rowPitch` in bytes for linear tiling. For
  Morton tiling it takes a `rowPitch` in 4-byte elements.
- `Create` with a format other than FP32 passes `Validate` and frees the
  old data. It sets the tiling, resizes the mip records and fills in mip
  0's size and offset. Only then does it return INVALID_ARGUMENT.
- `_Serialize` of a result descriptor returns NOT_IMPLEMENTED. Serialize's
  loop ignores that result, since there are no result descriptors to write.

## Model

| member | source | states |
|---|---|---|
| OmmTypes.StateOfCode | omm-sdk/include/omm.h:67-73 | the numbering 0..3 of ommOpacityState is a bijection: decoding a code and encoding it again gives the code back |
| BitTricks.NextPow2 | shared/shared/bit_tricks.h:25-34 | for v up to 2^31 the result has exactly one bit set, is at least v, and is 1 or has its half below v (so nextPow2(0) = 1); above 2^31 the uint32 increment wraps to 0 |
| BitTricks.NextPow2IsLeast | shared/shared/bit_tricks.h:25-34 | no power of two that is at least v is smaller than nextPow2(v) |
| BitTricks.NextPow2Value | shared/shared/bit_tricks.h:25-34 | as a number, nextPow2(v) is 2^k for the least k with 2^k >= v |
| BitTricks.IsPow2Iff | shared/shared/bit_tricks.h:36-38 | isPow2(x) on a signed 32-bit x holds exactly when x is 2^k for some k < 31 (positive, one bit set) |
| BitTricks.InterleaveBits | shared/shared/bit_tricks.h:40-64 | for x, y < 65536, bit i of x lands on bit 2i of the code and bit i of y on bit 2i + 1 |
| BitTricks.Morton1Bits | shared/shared/bit_tricks.h:126-134 | morton1 yields a value below 2^16 whose bit i is bit 2i of its input |
| BitTricks.MortonRoundTrip | shared/shared/bit_tricks.h:136-155 | morton_to_xy(xy_to_morton_sw(x, y)) == (x, y) for x, y < 65536 |
| BitTricks.MortonRoundTripFromCode | shared/shared/bit_tricks.h:136-155 | every 32-bit code is the Morton code of the coordinates morton_to_xy decodes from it |
| BitTricks.CtzSlow | shared/shared/bit_tricks.h:66-77 | ctz_slow(0) = 32; for n != 0 the count is below 32 and n is an odd number times 2^count |
| BitTricks.TrailingZerosUnique | shared/shared/bit_tricks.h:66-77 | the trailing-zero count that ctz_slow establishes is the only one a number has |
| BitTricks.XyToMortonIsMortonIndex | shared/shared/bit_tricks.h:142-145 | for x, y < 65536 xy_to_morton_sw computes the Z-order index defined digit by digit on numbers |
| BitTricks.MortonIndexBound | shared/shared/bit_tricks.h:142-145 | coordinates below 2^k have a Morton index below 4^k |
| BitTricks.MortonIndexInjective | shared/shared/bit_tricks.h:142-145 | different texels have different Morton indices |
| MathUtil.AlignRoundsUp | shared/shared/math.h:68-72 | for a power-of-two alignment and no wrap-around, Align(s, a) is a multiple of a with s <= Align(s, a) < s + a |
| MathUtil.AlignIsLeast | shared/shared/math.h:68-72 | every multiple of a that is at least s is at least Align(s, a) |
| MathUtil.AlignIdempotent | shared/shared/math.h:68-72 | aligning an aligned size changes nothing |
| MathUtil.DivUpIsCeiling | shared/shared/math.h:62-66 | DivUp(x, y) * y >= x and, for x > 0, (DivUp(x, y) - 1) * y < x: the ceiling of x / y |
| Texture.GetTexCoord | shared/shared/texture.h:93-115 | an unknown address mode gives kTexCoordInvalid2; every other mode addresses the two components separately with that mode's rule; Wrap for a size that is not a power of two uses the corrected repeat Texture.WrapRepeat, not the header's unsigned remainder (see Findings) |
| Texture.Reflect | shared/shared/texture.h:53-55 | `abs(x) - (x < 0)` keeps non-negative x and maps negative x to -x-1 |
| Texture.WrapPow2IsRepeat | shared/shared/texture.h:38-43 | for a power-of-two size the mask `uint(x) & (size - 1)` is x modulo size, negative x included |
| Texture.WrapRepeatProperties | shared/shared/texture.h:38-47 | the corrected Wrap, which the dispatch uses for sizes that are not a power of two, is the identity on texels of the texture and repeats with period size |
| Texture.WrapAsWrittenAgrees | shared/shared/texture.h:44-47 | the unsigned remainder `uint(x) % uint(size)` wraps correctly when x >= 0 or size divides 2^32 |
| Texture.WrapAsWrittenNegativeNonPow2 | shared/shared/texture.h:44-47 | the unsigned remainder maps x = -1 in a 3-texel row to texel 0, where wrapping gives texel 2 |
| Texture.MirrorPow2IsMirrorAny | shared/shared/texture.h:51-70 | the bit-test Mirror for size 2^log2 equals the division-based Mirror |
| Texture.MirrorIsTriangleWave | shared/shared/texture.h:49-71 | Mirror equals the triangle wave of period 2 * size, an independent reference definition |
| Texture.MirrorProperties | shared/shared/texture.h:49-71 | Mirror stays inside the texture, is the identity on it, has period 2 * size and is symmetric about -1/2 |
| Texture.ClampProperties | shared/shared/texture.h:72-74 | Clamp keeps texels of the texture, sends x < 0 to 0 and x >= size to size - 1 |
| Texture.BorderProperties | shared/shared/texture.h:75-82 | Border keeps texels of the texture and replaces every other component with kTexCoordBorder |
| Texture.MirrorOnceProperties | shared/shared/texture.h:83-86 | MirrorOnce stays inside the texture, is symmetric about -1/2, agrees with Mirror on [-size, size) and with Clamp for x >= 0 |
| Texture.GatherIsNeighbours | shared/shared/texture.h:121-128 | the four gathered coordinates are GetTexCoord of p, p + (1, 0), p + (0, 1) and p + (1, 1) |
| Texture.GetTexCoordFormatSize | shared/shared/texture.h:150-161 | the sentinel format is exactly the one with size 0; every other format has two components of 2 or 4 bytes |
| Parse.IndexEntryBytes | shared/shared/parse.h:20-26 | entries are 2 bytes wide exactly for I16_UINT and 4 bytes otherwise |
| Parse.GetOmmIndexForTriangleIndex | shared/shared/parse.h:20-26 | entry i is read as a signed value of the entry width: it is in range for the format and has the bit pattern of bytes [w*i, w*i + w) |
| Parse.IndexBufferRoundTrip | shared/shared/parse.h:20-26 | reading entry i of a buffer encoded from indices gives indices[i] back, negative special indices included |
| Parse.GetOmmBitSize | shared/shared/parse.h:28-32 | the result is what the int32_t return type can hold: the uint32 product of the bit size (2 or 4) and the micro-triangle count, reinterpreted as signed |
| Parse.GetOmmBitSizeAsWritten | shared/shared/parse.h:28-32 | up to level 14 nothing wraps and GetOmmBitSize is twice the bits the micromap occupies |
| Parse.GetOmmBitSizeTwoStateLevelZero | shared/shared/parse.h:28-32 | a 2-state level-0 micromap holds 1 bit but GetOmmBitSize reports 2 |
| Parse.OmmBitSize | shared/shared/parse.h:28-32 | the bits a micromap occupies: bits per state (1 for 2-state, else 2) times 4^level |
| Parse.NumMicroTriangles | shared/shared/parse.h:48 | `1 << (level << 1)` micro-triangles, 4^level, at least one |
| Parse.BitsPerState | shared/shared/parse.h:49-51 | 1 bit per state exactly for the 2-state format, 2 otherwise |
| Parse.ShiftMaskTwoState | shared/shared/parse.h:54-57 | the 2-state read `(v >> (i & 7)) & 1` of byte i >> 3 is bit i of the micromap's bit stream |
| Parse.ShiftMaskFourState | shared/shared/parse.h:54-58 | the 4-state read `(v >> ((i << 1) & 7)) & 3` of byte i >> 2 is bits 2i..2i+1 of the bit stream |
| Parse.PackStatesRoundTrip | shared/shared/parse.h:52-60 | unpacking state i from packed states gives state i back |
| Parse.MicromapRoundTrip | shared/shared/parse.h:46-60 | 4^level states packed take BytesForBits(OmmBitSize) bytes and decode to themselves |
| Parse.DecodesPlaced | shared/shared/parse.h:47 | decoding reads only the micromap's own bytes from its offset on |
| Parse.ReadState | shared/shared/parse.h:54-58 | one loop step reads state i of the micromap at the descriptor's offset |
| Parse.GetTriangleStates | shared/shared/parse.h:34-65 | a negative index returns level 0 and writes only outStates[0] = ~index; a non-negative one returns the descriptor's level and, when outStates is not null, writes exactly its 4^level decoded states and nothing else |
| Parse.SpecialIndexStates | shared/shared/parse.h:38-43 | ~index maps the special indices -1..-4 to Transparent, Opaque, UnknownTransparent, UnknownOpaque |
| Triangles.MakeTriangle | shared/shared/triangle.h:36-44 | the constructor keeps the vertices; aabb_s is the componentwise minimum and aabb_e the componentwise maximum of them |
| Triangles.GetP | shared/shared/triangle.h:46-53 | getP(0), getP(1), getP(2) are p0, p1, p2 |
| Triangles.BoxHoldsVertices | shared/shared/triangle.h:36-53 | every vertex of a constructed triangle lies inside its box |
| Triangles.Float16ToFloat32 | shared/shared/triangle.h:86-102 | both zeros give pattern 0; otherwise the sign is kept, the exponent rebiased from 15 to 127 and the mantissa shifted left by 13 |
| Triangles.HalfInfinityIsFinite | shared/shared/triangle.h:86-102 | with no special case, half +infinity 0x7c00 becomes 0x47800000 (65536.0) |
| Triangles.GetUvComponentStorage | shared/shared/triangle.h:104-109 | the read is a value of the component's width |
| Triangles.UvComponentReadBack | shared/shared/triangle.h:104-109 | a component written at byte stride * index + component * size reads back unchanged |
| Triangles.UvComponentOthersKept | shared/shared/triangle.h:104-109 | writing other bytes leaves a component unchanged |
| Triangles.UnsignedIsSignedPattern | shared/shared/triangle.h:166-180 | the zero-extended read is the signed parse read reduced to the entry width |
| Triangles.UnsignedIndexRoundTrip | shared/shared/triangle.h:166-180 | reading entry k of an encoded unsigned index buffer gives it back |
| Triangles.GetUInt32Indices | shared/shared/triangle.h:166-180 | writes the three entries at triIndexIndex..+2, zero-extended from 16 bits for I16_UINT and read as 32 bits otherwise |
| BakeKernels.GetUnknownVersionOf | omm-sdk/src/bake_kernels_cpu.h:38 | the unknown counterpart of a state is unknown and leans to the same known state |
| BakeKernels.GetStateFromCoverage | omm-sdk/src/bake_kernels_cpu.h:25-61 | without mixed coverage the result is alphaCutoffLE when nothing is above the cutoff, else alphaCutoffGT; with known cutoff states the 4-state result is unknown exactly when coverage is mixed, and a 2-state result is never unknown |
| BakeKernels.ForcedPromotion | omm-sdk/src/bake_kernels_cpu.h:28-50 | mixed coverage under ForceOpaque/ForceTransparent gives (Unknown)Opaque/(Unknown)Transparent, unknown exactly in the 4-state format |
| BakeKernels.NearestFollowsMajority | omm-sdk/src/bake_kernels_cpu.h:36-60 | under Nearest the state leans to GT when above >= below (ties to GT), else to LE; no samples gives LE |
| BakeKernels.TwoStateIsKnownFourState | omm-sdk/src/bake_kernels_cpu.h:28-50 | the 2-state result is the known version of the 4-state result for every mode and coverage |
| CpuTexture.Validate | omm-sdk/src/texture_impl.cpp:37-58 | SUCCESS exactly when mipCount > 0, the format is not MAX_NUM and every mip has data, non-zero width and height, and both at most kMaxDim = 65536; INVALID_ARGUMENT otherwise |
| CpuTexture.TilingForIsBitZero | omm-sdk/src/texture_impl.cpp:67 | the DisableZOrder bit (bit 0 of flags) selects Linear, its absence MortonZ; the sentinel tiling is never chosen |
| CpuTexture.MortonSide | omm-sdk/src/texture_impl.cpp:85 | nextPow2(max(w, h)) is at least both sides |
| CpuTexture.From2Dto1DInRange | omm-sdk/src/texture_impl.cpp:210-226 | every texel of a w x h mip has its slot (x + y * w, or the Morton index) below numElements (w * h, or nextPow2(max(w, h))^2) |
| CpuTexture.From2Dto1DInjective | omm-sdk/src/texture_impl.cpp:210-226 | distinct texels get distinct slots in both tilings |
| CpuTexture.AlignIsRoundUp64 | omm-sdk/src/texture_impl.cpp:100-101 | Align(x, 64) is the least multiple of 64 not below x |
| CpuTexture.LayoutAt | omm-sdk/src/texture_impl.cpp:69-102 | mip k's record has its size, numElements for the tiling, and dataOffset equal to the aligned running total of mips 0..k-1 (offset[0] = 0) |
| CpuTexture.EndOffsetStep | omm-sdk/src/texture_impl.cpp:100-101 | offset[k+1] = Align(offset[k] + 4 * numElements[k], 64) |
| CpuTexture.LayoutPlacement | omm-sdk/src/texture_impl.cpp:69-104 | every mip starts on a 64-byte boundary, its 4 * numElements bytes lie inside the allocation and end before any later mip starts |
| CpuTexture.LayoutRecordsValid | omm-sdk/src/texture_impl.cpp:69-104 | every record of a validated chain has a real size and its slots inside the allocation |
| CpuTexture.Memcpy | omm-sdk/src/texture_impl.cpp:119 | std::memcpy copies n bytes to dst at dstOff and leaves every other byte of dst unchanged |
| CpuTexture.CopyLinear | omm-sdk/src/texture_impl.cpp:110-134 | after the linear copy (one memcpy when rowPitch is 0 or 4 * width, otherwise one memcpy of 4 * width bytes per row from src + row * rowPitch) every texel is in slot x + y * width, and nothing outside the mip's bytes changed |
| CpuTexture.VerbatimMip | omm-sdk/src/texture_impl.cpp:115-120 | a tightly packed source copied in one piece has every texel in its slot |
| CpuTexture.RowsAreMip | omm-sdk/src/texture_impl.cpp:121-133 | copied rows are a copied mip in linear tiling |
| CpuTexture.CopyRows | omm-sdk/src/texture_impl.cpp:123-133 | the row loop copies every row to consecutive rows of 4 * width bytes and touches nothing outside the mip |
| CpuTexture.CopyMorton | omm-sdk/src/texture_impl.cpp:135-153 | dst[morton(i, j)] = src[i + j * rowPitch] for every texel, rowPitch in elements defaulting to width; nothing outside the mip changes |
| CpuTexture.MortonStep | omm-sdk/src/texture_impl.cpp:142-149 | writing slot morton(i, j) keeps every texel placed before it (Morton slots are distinct) |
| CpuTexture.TextureImpl.EarlierMipsKept | omm-sdk/src/texture_impl.cpp:106-166 | copying mip k writes only its own slots and keeps mips 0..k-1 |
| CpuTexture.TextureImpl.constructor | omm-sdk/src/texture_impl.h:84-87 | a new texture has no mips, no data and no tiling |
| CpuTexture.TextureImpl.Deallocate | omm-sdk/src/texture_impl.cpp:171-179 | frees the data and clears the mips, keeping the tiling |
| CpuTexture.TextureImpl.Create | omm-sdk/src/texture_impl.cpp:60-169 | an invalid descriptor gives INVALID_ARGUMENT with the texture untouched; a non-FP32 one gives INVALID_ARGUMENT after mip 0's record was partly filled and the data freed; an FP32 one gives SUCCESS with the flag's tiling, the layout records, an allocation of the layout's size and every texel copied |
| CpuTexture.TextureImpl.LayoutMips | omm-sdk/src/texture_impl.cpp:66-102 | the layout loop leaves the layout records and returns the aligned running total |
| CpuTexture.TextureImpl.CopyMips | omm-sdk/src/texture_impl.cpp:106-166 | the copy loop leaves every mip copied in the texture's tiling |
| CpuTexture.TextureImpl.CreatedIsValid | omm-sdk/src/texture_impl.cpp:60-169 | what Create builds satisfies the texture invariant |
| CpuTexture.TextureImpl.Load | omm-sdk/src/texture_impl.h:90-103 | under Load's assertions (matching tiling, coordinate in range and not a sentinel) it returns the 4-byte pattern at slot From2Dto1D of the mip |
| CpuTexture.TextureImpl.LoadReadsSource | omm-sdk/src/texture_impl.h:90-103 | after a successful Create, Load of texel (x, y) of mip k returns the four bytes the caller's data hold for that texel, in either tiling |
| CpuTexture.TextureImpl.CreatedAccessors | omm-sdk/src/texture_impl.h:45-59 | after Create, GetMipCount is mipCount, GetTilingMode the flag's tiling, GetSize and GetRcpSize each mip's size and reciprocal |
| BakeResult.Count32 | omm-sdk/src/bake_cpu_impl.h:73 | `(uint32_t)v.size()` keeps a count below 2^32 and reduces any other modulo 2^32 |
| BakeResult.IndexStorage | omm-sdk/src/bake_cpu_impl.h:54 | the int32_t index vector occupies four bytes per entry |
| BakeResult.BakeResultImpl.constructor | omm-sdk/src/bake_cpu_impl.h:52-68 | a new result has empty vectors and a zeroed descriptor |
| BakeResult.BakeResultImpl.Finalize | omm-sdk/src/bake_cpu_impl.h:70-83 | every pointer/count pair of the descriptor is set from its vector (arrayDataSize, descArrayCount, descArrayHistogramCount, indexCount, indexHistogramCount are the 32-bit sizes), indexFormat is the argument, and the vectors are unchanged |
| BakeResult.FinalizedIndicesReadBack | omm-sdk/src/bake_cpu_impl.h:78-80 | a descriptor finalised over int32 entries with I32_UINT reads every entry back through GetOmmIndexForTriangleIndex, and indexCount covers the buffer |
| BakeResult.BakeOutputImpl.constructor | omm-sdk/src/bake_cpu_impl.h:86-90 | a new output holds a fresh result with a zeroed descriptor |
| BakeResult.BakeOutputImpl.GetBakeResultDesc | omm-sdk/src/bake_cpu_impl.h:102-109 | a null out-pointer gives INVALID_ARGUMENT and nothing stored; otherwise SUCCESS and the caller receives the result's descriptor |
| Histogram.Tally | support/tests/util/omm_histogram.cpp:25-41 | the counting map holds exactly the keys that occur, each with its multiplicity |
| Histogram.TallyAdd | support/tests/util/omm_histogram.cpp:32-40 | counting one more key inserts it with 1 or increments its entry |
| Histogram.Remaining | support/tests/util/omm_histogram.cpp:43-62 | after entries 0..j-1 the map holds exactly the counted keys not erased by a non-zero entry, with their counts |
| Histogram.CheckUsage | support/tests/util/omm_histogram.cpp:43-64 | the consuming loop fails exactly when some zero entry finds its key, some non-zero entry misses its key or its count, or keys are left over |
| Histogram.ConsistentIffDescribes | support/tests/util/omm_histogram.cpp:43-64 | a usage list passes against the counts of a multiset exactly when its non-zero entries have distinct keys and describe the multiset, and its zero entries name keys it lacks or already consumed |
| Histogram.DescribedSize | support/tests/util/omm_histogram.cpp:43-64 | the described multiset has as many keys as the counts add up to |
| Histogram.ValidateArrayHistogram | support/tests/util/omm_histogram.cpp:20-65 | with indexCount 0 it never fails; otherwise it fails exactly when the array histogram does not match the descriptors counted by (level, format) |
| Histogram.ValidateIndexHistogram | support/tests/util/omm_histogram.cpp:67-120 | with indexCount 0 it never fails; otherwise it fails exactly when a non-special index is not below descArrayCount or the index histogram does not match the referenced descriptors counted by (level, format), negative indices skipped |
| Histogram.ArrayHistogramTotal | support/tests/util/omm_histogram.cpp:20-65 | an accepted array histogram's counts add up to descArrayCount |
| Histogram.IndexHistogramTotal | support/tests/util/omm_histogram.cpp:67-120 | an accepted index histogram's counts add up to the number of non-special indices |
| Histogram.ValidateHistograms | support/tests/util/omm_histogram.cpp:122-127 | a null descriptor fails; otherwise both checks run and the result fails exactly when either does; an accepted descriptor's histograms total descArrayCount and the non-special index count |
| Serialize.MaxOverTrianglesIsMax | omm-sdk/src/serialize_impl.cpp:63-71 | the running maximum over the complete triangles bounds every index they hold and, when there is a triangle, equals one of them |
| Serialize.GetMaxIndex | omm-sdk/src/serialize_impl.cpp:58-74 | _GetMaxIndex returns the largest index of the indexCount / 3 complete triangles (0 when there are none), read in the descriptor's index format |
| Serialize.TexCoordsSizeCoversVertices | omm-sdk/src/serialize_impl.cpp:92 | when the 32-bit product does not wrap, the coordinate block is GetTexCoordFormatSize(format) bytes for each of the vertices 0..maxIndex |
| Serialize.TexCoordsSizeWraps | omm-sdk/src/serialize_impl.cpp:92 | the product is evaluated in uint32: 2^29 UV32_FLOAT vertices, or a maximum index of 0xFFFFFFFF in any format, give a block size of 0 |
| Serialize.IndexBufferSize | omm-sdk/src/serialize_impl.cpp:104 | indexCount * (2 or 4) is a uint32 product and stays below 2^32 |
| Serialize.OutStream.Write | omm-sdk/src/serialize_impl.cpp:18-41 | the counting stream buffer accepts every byte; the memory stream buffer appends what fits in its block and drops the rest |
| Serialize.WriteInputDesc | omm-sdk/src/serialize_impl.cpp:76-133 | writing one input descriptor emits exactly its encoding: the fields in source order, the texture block second, the coordinates, formats and levels behind their 8-byte sizes, the index buffer with none |
| Serialize.WriteInputDescs | omm-sdk/src/serialize_impl.cpp:160-163 | the loop emits the encodings of the input descriptors one after the other, in order |
| Serialize.WriteDeserializedDesc | omm-sdk/src/serialize_impl.cpp:141-172 | the stream receives exactly EncodeDeserializedDesc: the version header, the flags, the input descriptors behind their count, then the result-descriptor count |
| Serialize.CountAndWrite | omm-sdk/src/serialize_impl.cpp:174-185 | the counting pass and the writing pass agree: the block allocated from the first is filled exactly by the second with the encoding |
| Serialize.SerializeResultImpl.Serialize | omm-sdk/src/serialize_impl.cpp:174-193 | the blob holds exactly the encoding and its size; a Compress flag yields NOT_IMPLEMENTED (after the blob is written), anything else SUCCESS |
| Serialize.InStream.Read | omm-sdk/src/serialize_impl.cpp:18-24 | a read from the memory buffer yields the next n bytes, or what is left when fewer remain, and advances past them |
| Serialize.ReadInputDesc | omm-sdk/src/serialize_impl.cpp:244-312 | reading the encoding of e into d restores every field the serializer wrote, keeps d's value where nothing was written, and leaves the stream just past that encoding |
| Serialize.ReadInputDescs | omm-sdk/src/serialize_impl.cpp:339-348 | the loop reads each input descriptor into a fresh default, giving the restored list in order |
| Serialize.ReadDeserializedDesc | omm-sdk/src/serialize_impl.cpp:320-363 | on a stream holding the encoding of e the result is e's written fields over the previous descriptor (header read and ignored) |
| Serialize.DeserializedResultImpl.Deserialize | omm-sdk/src/serialize_impl.cpp:365-374 | null data or a zero size gives INVALID_ARGUMENT and changes nothing; any other blob gives SUCCESS, and a blob that Serialize produced from a descriptor restores that descriptor's written fields |
| BakeApi.GetBakerType | omm-sdk/src/bake.cpp:33-35 | the type tag is the handle's low three bits, below 8 |
| BakeApi.GetBakerImpl | omm-sdk/src/bake.cpp:37-40 | the masked handle is the handle with its three low bits cleared, a multiple of 8 |
| BakeApi.CreateHandle | omm-sdk/src/bake.cpp:42-45 | or-ing the type into an 8-aligned pointer adds it |
| BakeApi.HandleRoundTrip | omm-sdk/src/bake.cpp:33-45 | a handle built from an 8-aligned pointer decodes back to the same type and the same pointer |
| BakeApi.AllocatedHandle | omm-sdk/src/bake.cpp:33-45 | the handle of an allocated object is non-null, inside 64 bits, and decodes back |
| BakeApi.CreateBaker | omm-sdk/src/bake.cpp:347-394 | a null descriptor or a type other than CPU and GPU gives INVALID_ARGUMENT; otherwise SUCCESS with a handle exactly when Create succeeded, FAILURE and the baker freed when it did not |
| BakeApi.DestroyBaker | omm-sdk/src/bake.cpp:396-417 | null gives INVALID_ARGUMENT, a CPU or GPU tag SUCCESS, any other tag FAILURE |
| BakeApi.CreatedBakerDestroys | omm-sdk/src/bake.cpp:347-417 | every baker ommCreateBaker hands out is destroyed with SUCCESS |
| BakeApi.CpuCreateTexture | omm-sdk/src/bake.cpp:57-82 | null baker, null descriptor or a non-CPU baker give INVALID_ARGUMENT; otherwise the texture's Create decides: on success a fresh texture is handed out, on failure nothing is and Create's error is returned |
| BakeApi.CpuDestroyTextureNullBaker | omm-sdk/src/bake.cpp:84-99 | as written, a null baker with a non-null texture reaches the dereference of the null baker's log, and a CPU-tagged handle over a null object reaches the dereference of its allocator |
| BakeApi.CpuDestroyTexture | omm-sdk/src/bake.cpp:84-99 | SUCCESS exactly when texture and baker are non-null and the baker is a CPU one; INVALID_ARGUMENT otherwise |
| BakeApi.CpuDestroyTextureAgrees | omm-sdk/src/bake.cpp:84-99 | wherever the as-written entry point is defined it returns what the corrected one does |
| BakeApi.CpuBake | omm-sdk/src/bake.cpp:101-114 | a null baker, a missing input descriptor or a non-CPU baker give INVALID_ARGUMENT; otherwise the baker's own result |
| BakeApi.BakerTypeDecidesCpuCalls | omm-sdk/src/bake.cpp:101-114 | a baker created as CPU passes the CPU entry points' checks; one created as GPU is refused by them |
| BakeApi.CpuDestroyBakeResult | omm-sdk/src/bake.cpp:116-125 | SUCCESS exactly for a non-null result, INVALID_ARGUMENT for null |
| BakeApi.CpuGetBakeResultDesc | omm-sdk/src/bake.cpp:127-133 | a null result is refused; otherwise the result object's own descriptor is handed out |
| BakeApi.CpuSerialize | omm-sdk/src/bake.cpp:135-162 | a null or non-CPU baker is refused with the out-pointer untouched; otherwise the out-pointer is written, holding a fresh blob with the encoding on SUCCESS and null on failure, and Serialize's result is returned |
| BakeApi.CpuGetSerializedResultDesc | omm-sdk/src/bake.cpp:164-175 | a null result or out-pointer gives INVALID_ARGUMENT; otherwise the blob's data and size are handed out |
| BakeApi.CpuDestroySerializedResult | omm-sdk/src/bake.cpp:177-185 | SUCCESS exactly for a non-null result |
| BakeApi.CpuDeserialize | omm-sdk/src/bake.cpp:187-214 | a null or non-CPU baker is refused; otherwise SUCCESS exactly for non-null data of non-zero size, with a fresh result object on success and null on failure |
| BakeApi.CpuGetDeserializedDesc | omm-sdk/src/bake.cpp:216-229 | a null result or out-pointer gives INVALID_ARGUMENT; otherwise the result's descriptor is handed out |
| BakeApi.CpuDestroyDeserializedResult | omm-sdk/src/bake.cpp:231-240 | SUCCESS exactly for a non-null result |
| BakeApi.SerializeRoundTrip | omm-sdk/src/bake.cpp:135-229 | serializing through a CPU baker, fetching the blob, deserializing it and fetching the descriptor gives every written field back over a fresh result's defaults |
| BakeApi.GpuDestroyPipeline | omm-sdk/src/bake.cpp:270-280 | a null pipeline, a null baker or a non-GPU baker give INVALID_ARGUMENT; otherwise the baker's own result |
| Bytes.DecodeEncode | omm-sdk/src/serialize_impl.cpp:151-154 | a field written as its n little-endian bytes reads back as the same value whenever it fits in n bytes |
| Bytes.EncodeDecode | omm-sdk/src/serialize_impl.cpp:330-333 | re-encoding the value read from n bytes reproduces those bytes |
| Bytes.SignedRoundTrip | shared/shared/parse.h:20-26 | a signed 16- or 32-bit index stored as its two's-complement bytes reads back as itself through the signed view |
| Bytes.EncodeAllSlice | shared/shared/parse.h:23-25 | entry i of a packed array of n-byte values is the n bytes at offset n*i |
| Schema.TypeName | omm-sdk/scripts/_interface_gen_c.py:61-64 | a key that is not declared (a primitive type) names itself |
| Schema.MemberNamesAt | omm-sdk/scripts/_interface_gen_c.py:117-118 | entry i of the member names is member i's name |
| Schema.PrefixTableIsFlatPathTable | omm-sdk/scripts/_interface_gen_c.py:279-294 | the C generator's prefix table is the C++ generator's path table (omm-sdk/scripts/_interface_gen_cpp.py:221-238) with every path concatenated, so a declaration nested in N1..Nk gets the C prefix N1+...+Nk |
| Schema.PathTableEntries | omm-sdk/scripts/_interface_gen_cpp.py:221-238 | the walk only adds or overwrites entries of declarations that are not namespaces, each with a path that extends the path it started at |
| Schema.PathTableUntouched | omm-sdk/scripts/_interface_gen_cpp.py:221-238 | a walk over a layout in which a key does not occur leaves that key's entry, or its absence, as it was |
| Schema.PathTableAppend | omm-sdk/scripts/_interface_gen_cpp.py:222 | walking a layout split in two is walking the first part and then the second from the table the first left |
| Schema.LeafPath | omm-sdk/scripts/_interface_gen_cpp.py:221-238 | a declaration listed once, and nowhere after that, is recorded with exactly the path of the list it is in, whatever namespaces come before it (each extends only its own copy of the path) |
| Schema.GetNameWithPrefix | omm-sdk/scripts/_interface_gen_c.py:20-23 | the name behind its key's prefix, the name alone when the key has no entry (an empty prefix gives the same text) |
| Schema.FlattenedName | omm-sdk/scripts/_interface_gen_c.py:20-23 | with the flattened path table, a declared key's name gets its namespaces concatenated in front; a key without a record is passed through |
| Schema.Intersection | omm-sdk/scripts/_interface_gen_cpp.py:18-20 | despite its name, the result holds exactly the elements of lst1 that are not in lst2, and is no longer than lst1 |
| Schema.IntersectionSnoc | omm-sdk/scripts/_interface_gen_cpp.py:19 | the comprehension keeps lst1's order: one more element of lst1 is added at the end exactly when it is not in lst2 |
| Schema.IntersectionDisjoint | omm-sdk/scripts/_interface_gen_cpp.py:18-20 | when no element of lst1 is in lst2 the result is all of lst1 |
| Schema.Qualifier | omm-sdk/scripts/_interface_gen_cpp.py:23-27 | a qualifier is put in front exactly when both keys have a path, the referrer's is non-empty, and some namespace of the target's path is missing from it |
| Schema.BareNameIff | omm-sdk/scripts/_interface_gen_cpp.py:22-36 | the name is left bare exactly when a path is missing, the referrer's path is empty, or every namespace of the target's path is in the referrer's; otherwise the result ends with "::" and the name |
| Schema.QualifierDisjoint | omm-sdk/scripts/_interface_gen_cpp.py:22-36 | a target none of whose namespaces are in the referrer's non-empty path is qualified with its whole path |
| Schema.CpuMissingFromDebug | omm-sdk/scripts/_interface_gen_cpp.py:18-20 | the namespaces of omm::Cpu missing from omm::Debug are just Cpu |
| Schema.CpuNameInDebug | omm-sdk/include/omm.hpp:809 | a declaration of omm::Cpu referred to from omm::Debug is written Cpu::BakeInputDesc, as the generated header has it |
| TextFormat.GetWhitespace | omm-sdk/scripts/_interface_gen_c.py:6-10 | the loop returns three spaces per indentation level (the C++ generator's copy is omm-sdk/scripts/_interface_gen_cpp.py:6-10) |
| TextFormat.PadRight | omm-sdk/scripts/_interface_gen_c.py:51 | `'{0:<w}'.format(s)` keeps s as its prefix and is exactly w long, or s itself when s is longer |
| TextFormat.PadRightSpaces | omm-sdk/scripts/_interface_gen_c.py:51 | the padding after s is spaces |
| TextFormat.PaddedColumn | omm-sdk/scripts/_interface_gen_c.py:110 | text written after a field padded to w starts at column w when the field fits |
| TextFormat.PaddedAfter | omm-sdk/scripts/_interface_gen_c.py:139-140 | the indentation, a padded field and the rest lay a line out in columns |
| TextFormat.MaxLenSnoc | omm-sdk/scripts/_interface_gen_c.py:35 | one more string updates the longest length as `max(len(x), maxLen)` does |
| TextFormat.MaxLenBound | omm-sdk/scripts/_interface_gen_c.py:32-35 | no string of the list is longer than the maximum |
| TextFormat.MaxLenAttained | omm-sdk/scripts/_interface_gen_c.py:32-35 | a non-empty list has a string exactly as long as the maximum |
| TextFormat.JoinSnoc | omm-sdk/scripts/_interface_gen_c.py:219-222 | joining one more part adds the separator (none before the first part) and the part, as the isFirst flag does |
| TextFormat.NewlineAt | omm-sdk/scripts/_interface_gen_c.py:15 | the index returned is |s| or the index of a line feed |
| TextFormat.NewlineAtFirst | omm-sdk/scripts/_interface_gen_c.py:15 | no line feed comes before that index: it is the first one |
| TextFormat.SplitLinesStep | omm-sdk/scripts/_interface_gen_c.py:15 | a string with a line feed splits into its first line and the lines of the rest |
| TextFormat.SplitLinesRoundTrip | omm-sdk/scripts/_interface_gen_c.py:15 | `splitlines` on line feeds loses only a final terminator: terminating each line again gives back the string, with a line feed added when it had none at the end |
| TextFormat.CommentedAt | omm-sdk/scripts/_interface_gen_c.py:18 | commented line i is line i behind the indentation and "// " |
| TextFormat.CommentedAppend | omm-sdk/scripts/_interface_gen_c.py:15-18 | commenting two runs of lines one after the other is commenting them together |
| TextFormat.CommentedIndented | omm-sdk/scripts/_interface_gen_c.py:18 | comment lines behind the indentation are indented at that level |
| TextFormat.ConcatenatedLast | omm-sdk/scripts/_interface_gen_c.py:41-54 | the last line of every non-empty printed block is among the concatenated lines |
| TextFormat.ConcatenatedStep | omm-sdk/scripts/_interface_gen_c.py:41-54 | printing block i after the first i blocks leaves the first i + 1 blocks printed |
| TextFormat.IndentedConcatenated | omm-sdk/scripts/_interface_gen_cpp.py:193-198 | blocks that are each indented at a level concatenate to lines indented at that level |
| TextFormat.BracedIndented | omm-sdk/scripts/_interface_gen_cpp.py:139-144 | a braced block one level deeper whose body is two levels deeper is indented at the outer level |
| TextFormat.Stdout.constructor | omm-sdk/scripts/_interface_gen_c.py:312 | the redirected output starts empty |
| TextFormat.Stdout.Print | omm-sdk/scripts/_interface_gen_c.py:18 | `print` appends one line to the output and changes nothing before it |
| Texture.WrapRepeat | shared/shared/texture.h:38-47 | the repeating wrap the address mode intends: a texel index below the size, congruent to the coordinate modulo the size also for negative coordinates |
| Parse.UnpackStates | shared/shared/parse.h:50-61 | the state loop writes exactly the first n states the micromap's bits decode to, reading bit i·bps of the stream with the source's shifts and masks, and leaves the rest of outStates alone |
| CHeaderGen.PrefixLut.constructor | omm-sdk/scripts/_interface_gen_c.py:309 | the prefix table starts empty |
| CHeaderGen.PrefixLut.BuildTypeToPrefix | omm-sdk/scripts/_interface_gen_c.py:279-294 | after the walk, the table is PrefixTable of the layout: each namespace's name is appended to the prefix and its children are walked; every other declaration is recorded under its key with the prefix it was met at |
| CHeaderGen.WriteComment | omm-sdk/scripts/_interface_gen_c.py:12-18 | prints every manual line of the comment, each wrapped separately, each wrapped line behind the indentation and "// " |
| CHeaderGen.WriteCommented | omm-sdk/scripts/_interface_gen_c.py:17-18 | the inner loop prints each wrapped line of one manual line behind ws and "// " |
| CHeaderGen.WrapAllStep | omm-sdk/scripts/_interface_gen_c.py:15-18 | one pass of the outer loop adds the next manual line's wrapped lines, in order |
| CHeaderGen.WrapAllWidth | omm-sdk/scripts/_interface_gen_c.py:15-16 | when the wrapper fills to 120 columns, no wrapped line of any manual line is longer than 120 |
| CHeaderGen.CommentWidth | omm-sdk/scripts/_interface_gen_c.py:12-18 | every printed comment line starts with the indentation and "// ", and is at most 120 characters longer than that |
| CHeaderGen.ValueTokensAt | omm-sdk/scripts/_interface_gen_c.py:34 | token i of an enum is `<Name>_<value name>` of value i |
| CHeaderGen.EnumTokenWidth | omm-sdk/scripts/_interface_gen_c.py:32-35 | the first loop of WriteEnum returns the length of the longest value token (0 for no values) |
| CHeaderGen.WriteEnumValue | omm-sdk/scripts/_interface_gen_c.py:41-54 | one pass prints a blank line only between values of an injectNewLine enum, then the value's comment, then its line: the token padded to maxLen + 1 and "= v," with v prefixed, or the token and "," when it has no value |
| CHeaderGen.WriteEnumBody | omm-sdk/scripts/_interface_gen_c.py:40-54 | the value loop prints every value's block, in order |
| CHeaderGen.WriteEnum | omm-sdk/scripts/_interface_gen_c.py:25-57 | prints `typedef enum N`, `{`, the value blocks one level in, `} N;` and, for a flag enum only, the OMM_DEFINE_ENUM_FLAG_OPERATORS line |
| CHeaderGen.EnumBodyInLines | omm-sdk/scripts/_interface_gen_c.py:37-55 | line k of the value blocks is line 2 + k of the printed enum |
| CHeaderGen.EnumTokenFits | omm-sdk/scripts/_interface_gen_c.py:32-35 | no value token is longer than the width the value lines are aligned to |
| CHeaderGen.EnumValueColumns | omm-sdk/scripts/_interface_gen_c.py:48-51 | a value line with a value has the indentation, the token in a field maxLen + 1 wide, then "= " and the prefixed value and "," |
| CHeaderGen.EnumBlockColumns | omm-sdk/scripts/_interface_gen_c.py:41-54 | the block of a value with a value ends with its aligned value line |
| CHeaderGen.EnumBodyAligned | omm-sdk/scripts/_interface_gen_c.py:41-54 | a value with a value and a token that fits has its aligned line among the value blocks |
| CHeaderGen.EnumValueAligned | omm-sdk/scripts/_interface_gen_c.py:25-57 | every value with an explicit value has a line in the printed enum with its token after the indentation and "= v," starting one column past the longest token |
| CHeaderGen.MemberLHSsAt | omm-sdk/scripts/_interface_gen_c.py:89-90 | entry i of the left-hand sides is GetStructMemberLHS of member i |
| CHeaderGen.MemberWidth | omm-sdk/scripts/_interface_gen_c.py:88-91 | the first loop of WriteStructMembers returns the length of the longest left-hand side |
| CHeaderGen.MemberLHSAt | omm-sdk/scripts/_interface_gen_c.py:107 | the left-hand side the member loop computes for member i is entry i of the left-hand sides |
| CHeaderGen.WriteStructMember | omm-sdk/scripts/_interface_gen_c.py:104-111 | one pass prints the member's comment, when it has one, then its line: the indentation, the left-hand side padded to maxLen + 1, the name and ";" |
| CHeaderGen.WriteStructMembers | omm-sdk/scripts/_interface_gen_c.py:85-111 | prints every member's comment and line, in order, with the names aligned one column past the longest left-hand side |
| CHeaderGen.MembersBodyBlocks | omm-sdk/scripts/_interface_gen_c.py:93-111 | the member loop's output is the members' blocks concatenated |
| CHeaderGen.MemberNameAligned | omm-sdk/scripts/_interface_gen_c.py:85-111 | every member has its line among the printed lines, built from its own left-hand side, which is no longer than the width |
| CHeaderGen.MemberLineColumns | omm-sdk/scripts/_interface_gen_c.py:109-111 | a member line has the indentation, the left-hand side, and from one column past the width the name and ";" |
| CHeaderGen.NoStorageInC | omm-sdk/scripts/_interface_gen_c.py:71-83 | a member's static and constexpr flags never change its C left-hand side |
| CHeaderGen.BoolIsOmmBool | omm-sdk/scripts/_interface_gen_c.py:66-69 | a member of the undeclared, unprefixed type bool is declared with ommBool, behind "const " and before "*" as flagged |
| CHeaderGen.DefaultTextsAt | omm-sdk/scripts/_interface_gen_c.py:121-151 | entry i of the value texts is the C text of member i's default |
| CHeaderGen.NameWidth | omm-sdk/scripts/_interface_gen_c.py:116-118 | the first loop of WriteStructMembersDefaultValue returns the length of the longest member name |
| CHeaderGen.WriteMemberDefault | omm-sdk/scripts/_interface_gen_c.py:120-151 | one pass prints the assignment line of a member whose value is a literal or an enum-value object with a type, and nothing for any other member |
| CHeaderGen.WriteStructMembersDefaultValue | omm-sdk/scripts/_interface_gen_c.py:113-151 | prints the assignment lines of the members, in order |
| CHeaderGen.AnyMemberHasDefaultValue | omm-sdk/scripts/_interface_gen_c.py:153-157 | true exactly when some member has a truthy value |
| CHeaderGen.WriteStructMembersDefaultInit | omm-sdk/scripts/_interface_gen_c.py:159-173 | prints nothing when no member has a value; otherwise the factory `inline N NDefault()` that declares v, assigns it and returns it |
| CHeaderGen.DefaultLineColumns | omm-sdk/scripts/_interface_gen_c.py:138-140 | an assignment line has the indentation, "v." and the name in a field maxLen + 3 wide, then " = ", the value and ";" |
| CHeaderGen.DefaultValueAligned | omm-sdk/scripts/_interface_gen_c.py:113-151 | every member that gets an assignment has its aligned assignment line among the lines printed, and its name is no longer than the longest name |
| CHeaderGen.DefaultsInFactory | omm-sdk/scripts/_interface_gen_c.py:165-173 | assignment line k is line 4 + k of the factory |
| CHeaderGen.DefaultAssigned | omm-sdk/scripts/_interface_gen_c.py:159-173 | every member that gets an assignment has its line in the printed factory, aligned one level in |
| CHeaderGen.FactoryIff | omm-sdk/scripts/_interface_gen_c.py:159-173 | the factory is printed exactly when some member has a value, and its second line is `inline N NDefault()` |
| CHeaderGen.StructFactory | omm-sdk/scripts/_interface_gen_c.py:175-198 | a C++-only struct prints nothing; any other prints its declaration first, then the factory exactly when a member has a value |
| CHeaderGen.WriteUnion | omm-sdk/scripts/_interface_gen_c.py:190-195 | prints a blank line, `union`, `{`, the union members two levels in and `};` |
| CHeaderGen.WriteStructHead | omm-sdk/scripts/_interface_gen_c.py:181-187 | prints the struct's comment, `typedef struct N` with N prefixed by its name, and `{` |
| CHeaderGen.WriteStructDecl | omm-sdk/scripts/_interface_gen_c.py:181-196 | prints the head, the members one level in, the union block when there are union members, and `} N;` |
| CHeaderGen.WriteStruct | omm-sdk/scripts/_interface_gen_c.py:175-198 | prints nothing for a C++-only struct, otherwise its declaration and its default factory |
| CHeaderGen.ArgTextsSnoc | omm-sdk/scripts/_interface_gen_c.py:219-239 | one pass of the argument loop adds the next parameter's text |
| CHeaderGen.ArgList | omm-sdk/scripts/_interface_gen_c.py:216-239 | the parameters' texts joined with ", ": "const ", the prefixed type, "*" per reference and pointer, "**" for a double pointer, a space and the name |
| CHeaderGen.WriteFunction | omm-sdk/scripts/_interface_gen_c.py:200-242 | prints the comment and `OMM_API [const ]R[*] N(args);` with the return type and the name prefixed |
| CHeaderGen.WriteTypedef | omm-sdk/scripts/_interface_gen_c.py:256-263 | prints `typedef U N;` with both names prefixed, each looked up by its own name |
| CHeaderGen.NamespaceLinesSnoc | omm-sdk/scripts/_interface_gen_c.py:250-254 | one pass of the namespace loop adds a blank line (not before the first child) and the child's lines |
| CHeaderGen.WriteNamespace | omm-sdk/scripts/_interface_gen_c.py:245-254 | prints the children at the same indentation, a blank line between two, and nothing of the namespace itself |
| CHeaderGen.WriteObject | omm-sdk/scripts/_interface_gen_c.py:265-277 | prints what the writer for the declaration's type prints |
| CppHeaderGen.PathLut.constructor | omm-sdk/scripts/_interface_gen_cpp.py:253 | the path table starts empty |
| CppHeaderGen.PathLut.BuildTypeToPrefix | omm-sdk/scripts/_interface_gen_cpp.py:221-238 | after the walk, the table is PathTable of the layout: each namespace walks its children with a copy of the path that has its name appended; every other declaration is recorded under its key with the path it was met at |
| CppHeaderGen.GetNameWithMinimalNamespace | omm-sdk/scripts/_interface_gen_cpp.py:22-36 | the joining loop gives MinimalName: the namespaces of the target's path missing from the referrer's, joined with "::", then "::" and the name; the bare name when either path is missing or empty or none is missing |
| CppHeaderGen.WriteComment | omm-sdk/scripts/_interface_gen_cpp.py:12-16 | prints the whole comment wrapped at once, each wrapped line behind the indentation and "// " |
| CppHeaderGen.CommentWidth | omm-sdk/scripts/_interface_gen_cpp.py:12-16 | when the wrapper fills to 120 columns, every comment line starts with the indentation and "// " and is at most 120 characters longer than that |
| CppHeaderGen.OptCommentIndented | omm-sdk/scripts/_interface_gen_cpp.py:57-58 | the comment printed before a value, member or declaration starts with the indentation it is printed at |
| CppHeaderGen.WriteOptComment | omm-sdk/scripts/_interface_gen_cpp.py:107-108 | prints the comment when there is one and nothing otherwise |
| CppHeaderGen.ValueNamesAt | omm-sdk/scripts/_interface_gen_cpp.py:47-48 | entry i of the value names is value i's name |
| CppHeaderGen.ValueNameWidth | omm-sdk/scripts/_interface_gen_cpp.py:46-48 | the first loop of WriteEnum returns the length of the longest value name (0 for no values) |
| CppHeaderGen.WriteEnumValue | omm-sdk/scripts/_interface_gen_cpp.py:53-65 | one pass prints a blank line only between values of an injectNewLine enum, the value's comment, then the bare name padded to maxLen + 1 and "= v," or the name and "," when it has no value |
| CppHeaderGen.WriteEnumBody | omm-sdk/scripts/_interface_gen_cpp.py:52-65 | the value loop prints every value's block, in order |
| CppHeaderGen.WriteEnum | omm-sdk/scripts/_interface_gen_cpp.py:38-68 | prints `enum class N`, `{`, the value blocks one level in, `};` and, for a flag enum only, the OMM_DEFINE_ENUM_FLAG_OPERATORS line |
| CppHeaderGen.EnumValueLineAt | omm-sdk/scripts/_interface_gen_cpp.py:38-68 | every value's line, aligned to the longest value name, is among the printed enum's lines |
| CppHeaderGen.EnumNameWidth | omm-sdk/scripts/_interface_gen_cpp.py:46-48 | no value name is longer than the width the value lines align to |
| CppHeaderGen.EnumValueColumns | omm-sdk/scripts/_interface_gen_cpp.py:60-62 | a value line with a value has the indentation, the name, spaces up to one column past the width, then "= v," and nothing else |
| CppHeaderGen.EnumValueAligned | omm-sdk/scripts/_interface_gen_cpp.py:38-68 | every value with an explicit value has a line in the printed enum with its name after the indentation and "= v," one column past the longest name |
| CppHeaderGen.MemberLHS | omm-sdk/scripts/_interface_gen_cpp.py:70-93 | the left-hand side is "static ", "constexpr ", "const " as flagged, the type's name qualified relative to the struct through GetNameWithMinimalNamespace, and "*" for a pointer |
| CppHeaderGen.StorageFirst | omm-sdk/scripts/_interface_gen_cpp.py:81-93 | the storage keywords come first: the left-hand side is "static " and "constexpr " as flagged, followed by the left-hand side of the same member without them |
| CppHeaderGen.MemberLHSsAt | omm-sdk/scripts/_interface_gen_cpp.py:100-101 | entry i of the left-hand sides is GetStructMemberLHS of member i |
| CppHeaderGen.DefaultTextsAt | omm-sdk/scripts/_interface_gen_cpp.py:114-121 | entry i of the value texts is the C++ text of member i's value: "{}" for "default", `T::v` for an enum-value object, the literal otherwise |
| CppHeaderGen.MemberCommentsAt | omm-sdk/scripts/_interface_gen_cpp.py:107-108 | entry i of the comments is member i's optional comment |
| CppHeaderGen.MemberBlocksAt | omm-sdk/scripts/_interface_gen_cpp.py:105-127 | block i is member i's comment and line, built from its own left-hand side, value text and comment |
| CppHeaderGen.MemberWidths | omm-sdk/scripts/_interface_gen_cpp.py:98-103 | the first loop returns the longest left-hand side and the longest member name |
| CppHeaderGen.MemberLHSAt | omm-sdk/scripts/_interface_gen_cpp.py:111 | the left-hand side the member loop computes for member i is entry i of the left-hand sides |
| CppHeaderGen.WriteStructMember | omm-sdk/scripts/_interface_gen_cpp.py:107-127 | one pass prints the member's comment, then its line: the left-hand side padded to maxLen + 1, and either the name padded to maxLenName + 1, " = ", the value and ";", or the name and ";" |
| CppHeaderGen.WriteMemberBlocks | omm-sdk/scripts/_interface_gen_cpp.py:105-127 | the member loop prints every member's block, in order |
| CppHeaderGen.WriteStructMembers | omm-sdk/scripts/_interface_gen_cpp.py:95-127 | prints every member's comment and line, in order, aligned to the longest left-hand side and the longest name |
| CppHeaderGen.MemberAligned | omm-sdk/scripts/_interface_gen_cpp.py:95-127 | every member has its line among the printed lines, built from its own left-hand side and value text and the two widths, neither of which it exceeds |
| CppHeaderGen.MemberLineColumns | omm-sdk/scripts/_interface_gen_cpp.py:114-126 | a member line has the indentation and the left-hand side; the name starts one column past the widest left-hand side; with a value, " = v;" starts one column past the widest name, without one ";" follows the name |
| CppHeaderGen.WriteUnion | omm-sdk/scripts/_interface_gen_cpp.py:139-144 | prints a blank line, `union`, `{`, the union members two levels in and `};` |
| CppHeaderGen.WriteStructHead | omm-sdk/scripts/_interface_gen_cpp.py:132-136 | prints the struct's comment, `struct N` with the bare name, and `{` |
| CppHeaderGen.WriteStruct | omm-sdk/scripts/_interface_gen_cpp.py:129-146 | prints the head, the members one level in, the union block when there are union members, and `};`; C++-only structs are printed like any other |
| CppHeaderGen.ArgTextsSnoc | omm-sdk/scripts/_interface_gen_cpp.py:166-181 | one pass of the argument loop adds the next parameter's text |
| CppHeaderGen.WriteArg | omm-sdk/scripts/_interface_gen_cpp.py:170-181 | one parameter: "const ", the type qualified relative to the function, "&" for a reference, "*" for a pointer, "**" for a double pointer, a space and the name |
| CppHeaderGen.ArgList | omm-sdk/scripts/_interface_gen_cpp.py:163-181 | the parameters' texts joined with ", " |
| CppHeaderGen.WriteFunction | omm-sdk/scripts/_interface_gen_cpp.py:148-184 | prints the comment and `static inline [const ]R[&] N(args);` with the return type and the name as written |
| CppHeaderGen.ArgBareType | omm-sdk/scripts/_interface_gen_cpp.py:174 | a parameter whose type has no path, seen from a function with no path, or whose path's namespaces all appear in the function's path, is written with its bare type |
| CppHeaderGen.ArgWholePath | omm-sdk/scripts/_interface_gen_cpp.py:174 | a parameter none of whose type's namespaces appear in the function's non-empty path is written with its type's whole path |
| CppHeaderGen.WriteTypedef | omm-sdk/scripts/_interface_gen_cpp.py:201-205 | prints `using N = U;` with neither name qualified |
| CppHeaderGen.ChildrenLinesSnoc | omm-sdk/scripts/_interface_gen_cpp.py:194-198 | one pass of the namespace loop adds a blank line (not before the first child) and the child's lines one level in |
| CppHeaderGen.WriteChildren | omm-sdk/scripts/_interface_gen_cpp.py:193-198 | the namespace loop prints every child one level in, a blank line between two |
| CppHeaderGen.NamespaceAfterLines | omm-sdk/scripts/_interface_gen_cpp.py:187-199 | what WriteNamespace appends is `namespace N`, `{` and a blank line, the children, a blank line and `} // namespace N` |
| CppHeaderGen.WriteNamespace | omm-sdk/scripts/_interface_gen_cpp.py:187-199 | the two-line prints `ws + "{\n"` and `"\n" + ws + "} ..."` each add two lines, in that order |
| CppHeaderGen.WriteObject | omm-sdk/scripts/_interface_gen_cpp.py:207-219 | prints what the writer for the declaration's type prints |

## Left out

- The generators' driver (omm-sdk/scripts/_interface_gen_c.py:296-323, omm-sdk/scripts/_interface_gen_cpp.py:240-265) is left out. It does file I/O: opening files, `json.load`, the header and footer text files, and redirecting `sys.stdout`. The parsed schema and the path table are passed explicitly instead of the globals `dic` and `prefixLut`.
- `textwrap.fill` is a library call. It is the parameter `wrap`, and the width lemmas assume a wrapper whose lines are at most 120 characters (`FillsTo120`).
- `str.splitlines` is modelled on line feeds only. Python also breaks lines at `\r`, `\v`, `\f` and a few Unicode separators, which the schema's comments do not contain.
- CHeaderGen.PrefixLut.BuildTypeToPrefix and CppHeaderGen.PathLut.BuildTypeToPrefix require a schema whose namespaces nest without a cycle, and every listed key to be declared. The scripts recurse forever on a cycle and raise KeyError on an undeclared key.
- CHeaderGen.WriteStructMembersDefaultInit treats a struct with no "members" key as having no members. The script passes None to AnyMemberHasDefaultValue there, which raises TypeError.
- CppHeaderGen.DefaultTexts renders an enum-value default object that has no "type" field with an empty type. The script raises KeyError there.
- Floating point is left out:
  - `rcpSize` is the exact reciprocal as a real, without float rounding;
  - `Bilinear`, the rasteriser and the conservative kernels are not modelled;
  - Mirror for non-power-of-two sizes and MirrorOnce use the integer reflection x < 0 ? -x-1 : x, which their `abs(x + 0.5)` route computes for integers.
- The `_pdep_u32` and `_BitScanForward` intrinsic paths of bit_tricks.h are left out. Only the software versions are modelled.
- The logging callbacks (omm-sdk/src/log.h) are left out. An entry point that logs and returns an error is modelled by the error it returns.
- The GPU baker, the bake pipeline behind BakeOpacityMicromap, and the bakers' own Create are calls into code outside this model. The result of each is a parameter.
- TextureImpl::Serialize and Deserialize are not part of this model. The texture is serialized as an opaque length-prefixed block that round-trips.
- The compression flag and result-descriptor serialization return NOT_IMPLEMENTED in the source, and the model returns the same. No compressed format is modelled.
- Multi-byte fields are laid out little-endian, the byte order of every platform the SDK builds for.
- CpuTexture.TextureImpl.Create requires `CreateFits` of an FP32 descriptor that Validate accepts. The layout's total must fit in size_t, and the caller's mip data must hold every texel the copy reads. The C++ wraps or reads out of bounds otherwise.
- CpuTexture.TextureImpl.Load requires what its OMM_ASSERTs check: the texture's tiling, an in-range coordinate that is not a sentinel, and an existing mip.
- Triangles.GetP requires an index of at most 2. Any other index is an OMM_ASSERT failure in the source.
- Parse.GetTriangleStates requires the index entry, the micromap's bytes and the output array to be in bounds. Out of bounds, the source reads or writes memory it does not own.
- Serialize.SerializeResultImpl.Serialize requires `SerializableDesc`: the memory every pointer of an input descriptor refers to must hold the bytes the serializer copies from it.
- Serialize.DeserializedResultImpl.Deserialize states the fields it restores only for a blob that Serialize produced. For any other non-empty blob, its contract says only that it returns SUCCESS. A truncated blob makes the source's reads come up short, and the fields it leaves are not characterised.
- Texture.GetTexCoord: for the Wrap mode on a size that is not a power of two, the dispatch uses the corrected repeat (Texture.WrapRepeat), not the unsigned remainder of shared/shared/texture.h:44-47 (Texture.WrapAsWritten). The two differ only for negative coordinates when the size does not divide 2^32, as the Findings row shows.
- Texture.GatherTexCoord4 adds 1 to the coordinate with unbounded integers. In the header, `texCoord + 1` is int32 arithmetic, which overflows at INT32_MAX, and that overflow is undefined behaviour in C++.
- BakeResult.BakeOutputImpl.GetBakeResultDesc hands the caller a copy of the result descriptor. The source hands out a pointer into the result object, so the caller's view aliases the object and dies with it. The aliasing is not modelled.
- Histogram.ValidateIndexHistogram and Histogram.ValidateArrayHistogram require the descriptor's arrays to hold the counts it states, as the test utilities assume of a finalised result.

## Findings

| source | as written | input that shows it | evidently intended | confidence | as-written member | corrected member |
|---|---|---|---|---|---|---|
| shared/shared/texture.h:44-47 | Wrap (Texture.WrapAsWritten) for a size that is not a power of two converts the coordinate to uint32_t before taking the remainder | x = -1 in a row of 3 texels: 4294967295 % 3 = 0, so texel 0 | texel 2, the coordinate modulo the size, as the power-of-two branch gives for negative coordinates | not executed | Texture.WrapAsWrittenNegativeNonPow2 | Texture.WrapRepeatProperties |
| shared/shared/parse.h:28-32 | GetOmmBitSize (Parse.GetOmmBitSize) multiplies the micro-triangle count by 2 bits for 2-state and 4 bits for 4-state | a 2-state micromap of level 0 (one micro-triangle) | 1 bit per 2-state and 2 bits per 4-state micro-triangle, as GetTriangleStates reads them (parse.h:54-58) | not executed | Parse.GetOmmBitSizeTwoStateLevelZero | Parse.MicromapRoundTrip |
| omm-sdk/src/bake.cpp:84-99 | ommCpuDestroyTexture (BakeApi.CpuDestroyTextureAsWritten) checks texture == 0 but not baker == 0 before using GetBakerImpl(baker)'s log, and a CPU-tagged handle with a null object reaches its allocator | baker = 0, texture != 0: the null baker is dereferenced | INVALID_ARGUMENT for a null baker, as every other ommCpu* entry point returns | not executed | BakeApi.CpuDestroyTextureNullBaker | BakeApi.CpuDestroyTexture |
