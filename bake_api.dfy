/** The public entry points of the library (omm-sdk/src/bake.cpp): baker
  * handles that carry the baker type in their low three bits, and the
  * argument checks each entry point makes before it hands the call on.
  *
  * A handle or an object pointer is a number, 0 standing for null. Calls
  * into code outside this model (the bakers' own Create, the bake itself,
  * pipeline destruction) are represented by the result they return, passed
  * in as a parameter. */
module BakeApi {
  import opened Bits
  import opened OmmTypes
  import CpuTexture
  import Serialize
  import BakeResult
  import opened Bytes

  // ---- Handles ----

  /** GetBakerType: `baker & 0x7`. */
  function GetBakerType(baker: nat): (t: nat)
    ensures t < 8 && t == baker % 8
  {
    assert Pow2(3) - 1 == 7;
    AndLowMask(baker, 3);
    BitAnd(baker, 7)
  }

  /** The mask GetBakerImpl applies: every bit of a 64-bit pointer but the low three. */
  const ImplMask: nat := 0xFFFF_FFFF_FFFF_FFF8

  /** GetBakerImpl: `baker & 0xFFFFFFFFFFFFFFF8`, the handle with its type bits cleared. */
  function GetBakerImpl(baker: nat): (impl: nat)
    requires baker < U64_LIMIT
    ensures impl == baker - baker % 8 && impl % 8 == 0
  {
    Pow2Of64();
    assert BitNot(7, 64) == ImplMask;
    AndNot(baker, 7, 64);
    RoundDownIsMultiple(baker, 8);
    var low := GetBakerType(baker);
    BitAnd(baker, ImplMask)
  }

  /** CreateHandle: `(uintptr_t)impl | (uintptr_t)type`. On an 8-aligned
    * pointer the type lands in the three bits the pointer leaves clear. */
  function CreateHandle(t: BakerType, impl: nat): (h: nat)
    ensures impl % 8 == 0 ==> h == impl + BakerTypeCode(t)
  {
    TagFitsAlignment(impl, BakerTypeCode(t));
    BitOr(impl, BakerTypeCode(t))
  }

  lemma TagFitsAlignment(impl: nat, tag: nat)
    requires tag < 8
    ensures impl % 8 == 0 ==> BitOr(impl, tag) == impl + tag
  {
    if impl % 8 == 0 {
      assert Pow2(3) == 8;
      OrLowBits(impl, tag, 3);
    }
  }

  /** The handle of an 8-aligned pointer gives back its type and its pointer. */
  lemma HandleRoundTrip(t: BakerType, impl: nat)
    requires impl % 8 == 0 && impl < U64_LIMIT
    ensures CreateHandle(t, impl) < U64_LIMIT
    ensures GetBakerType(CreateHandle(t, impl)) == BakerTypeCode(t)
    ensures GetBakerImpl(CreateHandle(t, impl)) == impl
  {
    var h := CreateHandle(t, impl);
    assert U64_LIMIT % 8 == 0;
    DivModUnique(h, 8, impl / 8, BakerTypeCode(t));
  }

  /** An object pointer: allocated, so not null and, as every allocation of
    * the library's allocator, 8-aligned and inside the 64-bit address space. */
  predicate Allocated(impl: nat)
  {
    0 < impl < U64_LIMIT && impl % 8 == 0
  }

  /** The handle of an allocated object is not null and decodes back. */
  lemma AllocatedHandle(t: BakerType, impl: nat)
    ensures Allocated(impl) ==>
      0 < CreateHandle(t, impl) < U64_LIMIT &&
      GetBakerType(CreateHandle(t, impl)) == BakerTypeCode(t) && GetBakerImpl(CreateHandle(t, impl)) == impl
  {
    if Allocated(impl) {
      HandleRoundTrip(t, impl);
    }
  }

  const CpuCode: nat := BakerTypeCode(CPU)
  const GpuCode: nat := BakerTypeCode(GPU)

  // ---- Bakers ----

  /** ommBakerCreationDesc, reduced to the field the entry point reads: the
    * numeric value of its `type`, which a caller may set out of range. */
  datatype BakerCreationDesc = BakerCreationDesc(bakerType: nat)

  /** What an entry point that creates an object did: its result, the
    * handle it stored through its out-pointer (None: nothing stored), and
    * whether the object it allocated is still alive. */
  datatype Created = Created(result: OmmResult, handle: Option<nat>, kept: bool)

  /** ommCreateBaker. A null descriptor or a type that is neither CPU nor
    * GPU is refused. Otherwise a baker of that type is allocated at `impl`
    * and created; `createResult` is what its Create returned. A baker
    * whose Create failed is freed, and the call reports FAILURE. */
  function CreateBaker(desc: Option<BakerCreationDesc>, impl: nat, createResult: OmmResult): (c: Created)
    ensures c.result == SUCCESS || c.result == INVALID_ARGUMENT || c.result == FAILURE
    ensures c.result == INVALID_ARGUMENT <==> desc.None? || (desc.value.bakerType != CpuCode && desc.value.bakerType != GpuCode)
    ensures c.result == SUCCESS <==> !(c.result == INVALID_ARGUMENT) && createResult == SUCCESS
    ensures c.handle.Some? <==> c.result == SUCCESS
    ensures c.kept <==> c.result == SUCCESS
    ensures c.result == SUCCESS && Allocated(impl) ==>
      0 < c.handle.value < U64_LIMIT && GetBakerType(c.handle.value) == desc.value.bakerType && GetBakerImpl(c.handle.value) == impl
  {
    if desc.None? then
      Created(INVALID_ARGUMENT, None, false)
    else if desc.value.bakerType == CpuCode || desc.value.bakerType == GpuCode then
      var t := if desc.value.bakerType == CpuCode then CPU else GPU;
      if createResult == SUCCESS then
        AllocatedHandle(t, impl);
        Created(SUCCESS, Some(CreateHandle(t, impl)), true)
      else
        Created(FAILURE, None, false)
    else
      Created(INVALID_ARGUMENT, None, false)
  }

  /** ommDestroyBaker: a null handle is refused, a CPU or GPU baker is
    * freed, and any other type tag is a FAILURE. */
  function DestroyBaker(baker: nat): (r: OmmResult)
    ensures r == INVALID_ARGUMENT <==> baker == 0
    ensures r == SUCCESS <==> baker != 0 && (GetBakerType(baker) == CpuCode || GetBakerType(baker) == GpuCode)
    ensures r == SUCCESS || r == INVALID_ARGUMENT || r == FAILURE
  {
    if baker == 0 then INVALID_ARGUMENT
    else if GetBakerType(baker) == CpuCode then SUCCESS
    else if GetBakerType(baker) == GpuCode then SUCCESS
    else FAILURE
  }

  /** Every baker ommCreateBaker hands out is destroyed successfully. */
  lemma CreatedBakerDestroys(desc: Option<BakerCreationDesc>, impl: nat, createResult: OmmResult)
    requires Allocated(impl)
    requires CreateBaker(desc, impl, createResult).result == SUCCESS
    ensures DestroyBaker(CreateBaker(desc, impl, createResult).handle.value) == SUCCESS
  {
  }

  // ---- CPU textures ----

  /** ommCpuCreateTexture. A null baker, a null descriptor and a baker that
    * is not a CPU one are refused, in that order. Otherwise a texture is
    * allocated and created from the descriptor: on success it is handed
    * out, on failure it is freed, nothing is stored, and Create's error is
    * returned. */
  method CpuCreateTexture(baker: nat, desc: Option<CpuTexture.TextureDesc>)
    returns (r: OmmResult, outTexture: Option<CpuTexture.TextureImpl>)
    requires desc.Some? ==> desc.value.mipCount <= |desc.value.mips|
    requires desc.Some? && CpuTexture.DescValid(desc.value) && desc.value.format == FP32 ==> CpuTexture.CreateFits(desc.value)
    ensures baker == 0 || desc.None? || GetBakerType(baker) != CpuCode ==> r == INVALID_ARGUMENT
    ensures baker != 0 && desc.Some? && GetBakerType(baker) == CpuCode ==>
      (r == SUCCESS <==> CpuTexture.DescValid(desc.value) && desc.value.format == FP32)
    ensures r == SUCCESS || r == INVALID_ARGUMENT
    ensures outTexture.Some? <==> r == SUCCESS
    ensures outTexture.Some? ==> fresh(outTexture.value) && outTexture.value.Created(desc.value)
  {
    if baker == 0 {
      return INVALID_ARGUMENT, None;
    }
    if desc.None? {
      return INVALID_ARGUMENT, None;
    }
    if GetBakerType(baker) != CpuCode {
      return INVALID_ARGUMENT, None;
    }
    var implementation := new CpuTexture.TextureImpl();
    var result := implementation.Create(desc.value);
    if result == SUCCESS {
      return SUCCESS, Some(implementation);
    }
    return result, None;
  }

  /** ommCpuDestroyTexture as the source has it: after the null-texture
    * check it uses the baker's object without checking it for null, to log
    * when the type tag is not CPU and to reach its allocator when it is.
    * None stands for that dereference of a null object. */
  function CpuDestroyTextureAsWritten(baker: nat, texture: nat): (r: Option<OmmResult>)
    requires baker < U64_LIMIT
    ensures r.None? <==> texture != 0 && GetBakerImpl(baker) == 0
    ensures r == Some(SUCCESS) <==> texture != 0 && GetBakerImpl(baker) != 0 && GetBakerType(baker) == CpuCode
  {
    if texture == 0 then Some(INVALID_ARGUMENT)
    else if GetBakerImpl(baker) == 0 then None
    else if GetBakerType(baker) != CpuCode then Some(INVALID_ARGUMENT)
    else Some(SUCCESS)
  }

  /** A null baker with a non-null texture reaches the null dereference, and
    * so does a handle carrying the CPU tag over a null object. */
  lemma CpuDestroyTextureNullBaker(texture: nat)
    requires texture != 0
    ensures CpuDestroyTextureAsWritten(0, texture).None?
    ensures CpuDestroyTextureAsWritten(CpuCode, texture).None?
  {
  }

  /** ommCpuDestroyTexture with the null-baker check every other entry point
    * taking a baker makes: a null texture or baker, or a baker that is not
    * a CPU one, is refused; otherwise the texture is freed. */
  function CpuDestroyTexture(baker: nat, texture: nat): (r: OmmResult)
    requires baker < U64_LIMIT
    ensures r == SUCCESS <==> texture != 0 && baker != 0 && GetBakerType(baker) == CpuCode
    ensures r == SUCCESS || r == INVALID_ARGUMENT
  {
    if texture == 0 then INVALID_ARGUMENT
    else if baker == 0 then INVALID_ARGUMENT
    else if GetBakerType(baker) != CpuCode then INVALID_ARGUMENT
    else SUCCESS
  }

  /** Wherever the source's version is defined it gives the same result. */
  lemma CpuDestroyTextureAgrees(baker: nat, texture: nat)
    requires baker < U64_LIMIT
    requires CpuDestroyTextureAsWritten(baker, texture).Some?
    ensures CpuDestroyTextureAsWritten(baker, texture).value == CpuDestroyTexture(baker, texture)
  {
    if baker == 0 {
      assert GetBakerType(baker) == 0;
    }
  }

  // ---- CPU bake and its result ----

  /** ommCpuBake: a null baker, a null input descriptor and a baker that is
    * not a CPU one are refused; otherwise the baker's own result
    * (`bakeResult`) is returned. */
  function CpuBake(baker: nat, hasInputDesc: bool, bakeResult: OmmResult): (r: OmmResult)
    ensures baker != 0 && hasInputDesc && GetBakerType(baker) == CpuCode ==> r == bakeResult
    ensures !(baker != 0 && hasInputDesc && GetBakerType(baker) == CpuCode) ==> r == INVALID_ARGUMENT
  {
    if baker == 0 then INVALID_ARGUMENT
    else if !hasInputDesc then INVALID_ARGUMENT
    else if GetBakerType(baker) != CpuCode then INVALID_ARGUMENT
    else bakeResult
  }

  /** The handle of a baker created as CPU passes the CPU entry points'
    * checks; one created as GPU never does. */
  lemma BakerTypeDecidesCpuCalls(t: BakerType, impl: nat, bakeResult: OmmResult)
    requires Allocated(impl) && t != BakerMAX_NUM
    ensures CpuBake(CreateHandle(t, impl), true, bakeResult) == (if t == CPU then bakeResult else INVALID_ARGUMENT)
    ensures CpuDestroyTexture(CreateHandle(t, impl), 1) == (if t == CPU then SUCCESS else INVALID_ARGUMENT)
  {
    HandleRoundTrip(t, impl);
  }

  /** ommCpuDestroyBakeResult: a null result is refused, any other freed. */
  function CpuDestroyBakeResult(bakeResult: nat): (r: OmmResult)
    ensures r == SUCCESS <==> bakeResult != 0
    ensures r == SUCCESS || r == INVALID_ARGUMENT
  {
    if bakeResult == 0 then INVALID_ARGUMENT else SUCCESS
  }

  /** ommCpuGetBakeResultDesc: a null result is refused; otherwise the
    * result's own accessor answers. */
  method CpuGetBakeResultDesc(bakeResult: Option<BakeResult.BakeOutputImpl>, hasOut: bool)
    returns (r: OmmResult, desc: Option<BakeResultDesc>)
    ensures r == SUCCESS <==> bakeResult.Some? && hasOut
    ensures r == SUCCESS || r == INVALID_ARGUMENT
    ensures desc.Some? <==> r == SUCCESS
    ensures desc.Some? ==> desc.value == bakeResult.value.bakeResult.bakeOutputDesc
  {
    if bakeResult.None? {
      return INVALID_ARGUMENT, None;
    }
    r, desc := bakeResult.value.GetBakeResultDesc(hasOut);
  }

  // ---- Serialization ----

  /** ommCpuBlobDesc: the blob's bytes (None: a null pointer) and its size. */
  datatype BlobDesc = BlobDesc(data: Option<seq<byte>>, size: nat)

  /** ommCpuSerialize. A null baker or one that is not a CPU baker is
    * refused without touching the out-pointer. Otherwise a result object
    * is allocated and serializes the descriptor: on success it is stored
    * through the out-pointer; on failure (a compression request) it is
    * freed and null is stored. `written` says whether anything was stored. */
  method CpuSerialize(baker: nat, desc: Serialize.DeserializedDesc)
    returns (r: OmmResult, written: bool, outResult: Option<Serialize.SerializeResultImpl>)
    requires Serialize.SerializableDesc(desc)
    ensures written <==> baker != 0 && GetBakerType(baker) == CpuCode
    ensures !written ==> r == INVALID_ARGUMENT
    ensures written ==> r == (if BitAnd(desc.flags, Serialize.Compress) == Serialize.Compress then NOT_IMPLEMENTED else SUCCESS)
    ensures outResult.Some? <==> r == SUCCESS
    ensures outResult.Some? ==> fresh(outResult.value) && outResult.value.data != null
    ensures outResult.Some? ==> outResult.value.data[..] == Serialize.EncodeDeserializedDesc(desc)
    ensures outResult.Some? ==> outResult.value.size == outResult.value.data.Length
  {
    if baker == 0 {
      return INVALID_ARGUMENT, false, None;
    }
    if GetBakerType(baker) != CpuCode {
      return INVALID_ARGUMENT, false, None;
    }
    var blobImpl := new Serialize.SerializeResultImpl();
    r := blobImpl.Serialize(desc);
    if r == SUCCESS {
      return r, true, Some(blobImpl);
    }
    return r, true, None;
  }

  /** ommCpuGetSerializedResultDesc: a null result or out-pointer is
    * refused; otherwise the result's blob descriptor is handed out. */
  method CpuGetSerializedResultDesc(result: Option<Serialize.SerializeResultImpl>, hasOut: bool)
    returns (r: OmmResult, desc: Option<BlobDesc>)
    ensures r == SUCCESS <==> result.Some? && hasOut
    ensures r == SUCCESS || r == INVALID_ARGUMENT
    ensures desc.Some? <==> r == SUCCESS
    ensures desc.Some? ==> desc.value.size == result.value.size
    ensures desc.Some? ==> desc.value.data == (if result.value.data == null then None else Some(result.value.data[..]))
  {
    if result.None? {
      return INVALID_ARGUMENT, None;
    }
    if !hasOut {
      return INVALID_ARGUMENT, None;
    }
    var impl := result.value;
    var data := if impl.data == null then None else Some(impl.data[..]);
    return SUCCESS, Some(BlobDesc(data, impl.size));
  }

  /** ommCpuDestroySerializedResult: a null result is refused, any other freed. */
  function CpuDestroySerializedResult(result: nat): (r: OmmResult)
    ensures r == SUCCESS <==> result != 0
    ensures r == SUCCESS || r == INVALID_ARGUMENT
  {
    if result == 0 then INVALID_ARGUMENT else SUCCESS
  }

  /** ommCpuDeserialize. A null baker or one that is not a CPU baker is
    * refused without touching the out-pointer. Otherwise a result object
    * is allocated and reads the blob: on success it is stored through the
    * out-pointer; on failure (null data or a zero size) it is freed and
    * null is stored. A blob that Serialize wrote for `expected` gives back
    * every field it wrote. */
  method CpuDeserialize(baker: nat, blob: BlobDesc, ghost expected: Serialize.DeserializedDesc)
    returns (r: OmmResult, written: bool, outResult: Option<Serialize.DeserializedResultImpl>)
    requires blob.data.Some? ==> blob.size <= |blob.data.value|
    ensures written <==> baker != 0 && GetBakerType(baker) == CpuCode
    ensures !written ==> r == INVALID_ARGUMENT
    ensures written ==> (r == SUCCESS <==> blob.data.Some? && blob.size != 0)
    ensures r == SUCCESS || r == INVALID_ARGUMENT
    ensures outResult.Some? <==> r == SUCCESS
    ensures outResult.Some? ==> fresh(outResult.value)
    ensures outResult.Some? && Serialize.SerializableDesc(expected) &&
            blob.data.value[..blob.size] == Serialize.EncodeDeserializedDesc(expected) ==>
              outResult.value.inputDesc == Serialize.RestoredDesc(Serialize.DeserializedDescDefault, expected)
  {
    if baker == 0 {
      return INVALID_ARGUMENT, false, None;
    }
    if GetBakerType(baker) != CpuCode {
      return INVALID_ARGUMENT, false, None;
    }
    var desImpl := new Serialize.DeserializedResultImpl();
    r := desImpl.Deserialize(blob.data, blob.size, expected);
    if r == SUCCESS {
      return r, true, Some(desImpl);
    }
    return r, true, None;
  }

  /** ommCpuGetDeserializedDesc: a null result or out-pointer is refused;
    * otherwise the result's descriptor is handed out. */
  method CpuGetDeserializedDesc(result: Option<Serialize.DeserializedResultImpl>, hasOut: bool)
    returns (r: OmmResult, desc: Option<Serialize.DeserializedDesc>)
    ensures r == SUCCESS <==> result.Some? && hasOut
    ensures r == SUCCESS || r == INVALID_ARGUMENT
    ensures desc.Some? <==> r == SUCCESS
    ensures desc.Some? ==> desc.value == result.value.inputDesc
  {
    if result.None? {
      return INVALID_ARGUMENT, None;
    }
    if !hasOut {
      return INVALID_ARGUMENT, None;
    }
    return SUCCESS, Some(result.value.inputDesc);
  }

  /** ommCpuDestroyDeserializedResult: a null result is refused, any other freed. */
  function CpuDestroyDeserializedResult(result: nat): (r: OmmResult)
    ensures r == SUCCESS <==> result != 0
    ensures r == SUCCESS || r == INVALID_ARGUMENT
  {
    if result == 0 then INVALID_ARGUMENT else SUCCESS
  }

  /** Serializing through one CPU baker, fetching the blob, deserializing it
    * through another and fetching the descriptor gives back every field
    * the serializer writes, over the defaults of a fresh result. */
  method SerializeRoundTrip(baker: nat, desc: Serialize.DeserializedDesc) returns (restored: Serialize.DeserializedDesc)
    requires baker != 0 && GetBakerType(baker) == CpuCode
    requires Serialize.SerializableDesc(desc) && BitAnd(desc.flags, Serialize.Compress) != Serialize.Compress
    ensures restored == Serialize.RestoredDesc(Serialize.DeserializedDescDefault, desc)
  {
    var r1, _, blobResult := CpuSerialize(baker, desc);
    var r2, blob := CpuGetSerializedResultDesc(blobResult, true);
    var data := blob.value.data.value;
    assert data[..blob.value.size] == data;
    assert |Serialize.EncodeDeserializedDesc(desc)| != 0 by {
      assert |EncodeLE(Serialize.VersionMajor, 4)| == 4;
    }
    var r3, _, desResult := CpuDeserialize(baker, blob.value, desc);
    var r4, out := CpuGetDeserializedDesc(desResult, true);
    restored := out.value;
  }

  // ---- GPU pipelines ----

  /** ommGpuDestroyPipeline: a null pipeline, a null baker and a baker that
    * is not a GPU one are refused; otherwise the baker's own result
    * (`destroyResult`) is returned. */
  function GpuDestroyPipeline(baker: nat, pipeline: nat, destroyResult: OmmResult): (r: OmmResult)
    ensures pipeline != 0 && baker != 0 && GetBakerType(baker) == GpuCode ==> r == destroyResult
    ensures !(pipeline != 0 && baker != 0 && GetBakerType(baker) == GpuCode) ==> r == INVALID_ARGUMENT
  {
    if pipeline == 0 then INVALID_ARGUMENT
    else if baker == 0 then INVALID_ARGUMENT
    else if GetBakerType(baker) != GpuCode then INVALID_ARGUMENT
    else destroyResult
  }
}
