/** The CPU bake result (omm-sdk/src/bake_cpu_impl.h): the vectors a bake
  * fills, the public descriptor Finalize points at them, and the accessor
  * that hands that descriptor out. */
module BakeResult {
  import opened Bits
  import opened Bytes
  import opened OmmTypes
  import Parse

  /** `ommCpuBakeResultDesc bakeOutputDesc = {0,}`: null pointers, zero
    * counts, and the index format whose value is 0. */
  const ZeroDesc: BakeResultDesc := BakeResultDesc([], 0, [], 0, [], 0, [], 0, I16_UINT, [], 0)

  /** `(uint32_t)v.size()`: a size_t count narrowed to 32 bits. */
  function Count32(n: nat): (r: nat)
    ensures r < U32_LIMIT
    ensures n < U32_LIMIT ==> r == n
    ensures r == n % U32_LIMIT
  {
    n % U32_LIMIT
  }

  /** The bytes behind `ommIndexBuffer.data()`: the vector holds int32_t
    * entries, each stored as four little-endian two's-complement bytes. */
  function IndexStorage(indices: seq<int>): (bs: seq<byte>)
    ensures |bs| == 4 * |indices|
  {
    Parse.EncodeIndexBuffer(indices, I32_UINT)
  }

  /** BakeResultImpl: the storage of one bake and the descriptor over it. */
  class BakeResultImpl {
    var ommIndexBuffer: seq<int>
    var ommDescArray: seq<MicromapDesc>
    var ommArrayData: seq<byte>
    var ommArrayHistogram: seq<UsageCount>
    var ommIndexHistogram: seq<UsageCount>
    var bakeOutputDesc: BakeResultDesc

    /** Every index-buffer entry is an int32_t. */
    predicate Valid()
      reads this
    {
      forall k :: 0 <= k < |ommIndexBuffer| ==> Parse.FitsIndexFormat(ommIndexBuffer[k], I32_UINT)
    }

    constructor()
      ensures Valid()
      ensures ommIndexBuffer == [] && ommDescArray == [] && ommArrayData == []
      ensures ommArrayHistogram == [] && ommIndexHistogram == []
      ensures bakeOutputDesc == ZeroDesc
    {
      ommIndexBuffer := [];
      ommDescArray := [];
      ommArrayData := [];
      ommArrayHistogram := [];
      ommIndexHistogram := [];
      bakeOutputDesc := ZeroDesc;
    }

    /** Finalize: every pointer/count pair of the descriptor is set from its
      * vector, the count narrowed to 32 bits, and the index format from the
      * argument. The vectors themselves are left as they are. */
    method Finalize(indexFormat: IndexFormat)
      requires Valid()
      modifies this
      ensures Valid()
      ensures ommIndexBuffer == old(ommIndexBuffer) && ommDescArray == old(ommDescArray)
      ensures ommArrayData == old(ommArrayData)
      ensures ommArrayHistogram == old(ommArrayHistogram) && ommIndexHistogram == old(ommIndexHistogram)
      ensures bakeOutputDesc == BakeResultDesc(
        ommArrayData, Count32(|ommArrayData|),
        ommDescArray, Count32(|ommDescArray|),
        ommArrayHistogram, Count32(|ommArrayHistogram|),
        IndexStorage(ommIndexBuffer), Count32(|ommIndexBuffer|), indexFormat,
        ommIndexHistogram, Count32(|ommIndexHistogram|))
    {
      bakeOutputDesc := bakeOutputDesc.(arrayData := ommArrayData);
      bakeOutputDesc := bakeOutputDesc.(arrayDataSize := Count32(|ommArrayData|));
      bakeOutputDesc := bakeOutputDesc.(descArray := ommDescArray);
      bakeOutputDesc := bakeOutputDesc.(descArrayCount := Count32(|ommDescArray|));
      bakeOutputDesc := bakeOutputDesc.(descArrayHistogram := ommArrayHistogram);
      bakeOutputDesc := bakeOutputDesc.(descArrayHistogramCount := Count32(|ommArrayHistogram|));
      bakeOutputDesc := bakeOutputDesc.(indexBuffer := IndexStorage(ommIndexBuffer));
      bakeOutputDesc := bakeOutputDesc.(indexCount := Count32(|ommIndexBuffer|));
      bakeOutputDesc := bakeOutputDesc.(indexFormat := indexFormat);
      bakeOutputDesc := bakeOutputDesc.(indexHistogram := ommIndexHistogram);
      bakeOutputDesc := bakeOutputDesc.(indexHistogramCount := Count32(|ommIndexHistogram|));
    }
  }

  /** A descriptor finalised over int32 entries with the I32_UINT format
    * reads every entry back through parse::GetOmmIndexForTriangleIndex, and
    * its count covers the buffer. */
  lemma FinalizedIndicesReadBack(desc: BakeResultDesc, indices: seq<int>)
    requires forall k :: 0 <= k < |indices| ==> Parse.FitsIndexFormat(indices[k], I32_UINT)
    requires |indices| < U32_LIMIT
    requires desc.indexBuffer == IndexStorage(indices) && desc.indexCount == Count32(|indices|)
    requires desc.indexFormat == I32_UINT
    ensures desc.indexCount == |indices|
    ensures forall i :: 0 <= i < desc.indexCount ==>
      Parse.IndexReadable(desc, i) && Parse.GetOmmIndexForTriangleIndex(desc, i) == indices[i]
  {
    forall i | 0 <= i < desc.indexCount
      ensures Parse.IndexReadable(desc, i) && Parse.GetOmmIndexForTriangleIndex(desc, i) == indices[i]
    {
      Parse.IndexBufferRoundTrip(desc, indices, i);
    }
  }

  /** BakeOutputImpl, reduced to the result it owns. */
  class BakeOutputImpl {
    const bakeResult: BakeResultImpl

    constructor()
      ensures fresh(bakeResult) && bakeResult.bakeOutputDesc == ZeroDesc
    {
      bakeResult := new BakeResultImpl();
    }

    /** GetBakeResultDesc: a null out-pointer is refused; otherwise the
      * caller receives the descriptor the result holds. `hasOut` says
      * whether the out-pointer is non-null, and `desc` is what is stored
      * through it. */
    method GetBakeResultDesc(hasOut: bool) returns (r: OmmResult, desc: Option<BakeResultDesc>)
      ensures r == SUCCESS || r == INVALID_ARGUMENT
      ensures r == SUCCESS <==> hasOut
      ensures desc.Some? <==> hasOut
      ensures desc.Some? ==> desc.value == bakeResult.bakeOutputDesc
    {
      if !hasOut {
        return INVALID_ARGUMENT, None;
      }
      desc := Some(bakeResult.bakeOutputDesc);
      return SUCCESS, desc;
    }
  }
}
