/** The enumerations of the public API (omm.h) that the modelled routines
  * branch on. Each `MAX_NUM`-style constructor stands for the enumeration's
  * out-of-range sentinel, which is what the `default:` branches see. */
module OmmTypes {
  import opened Bytes

  datatype Option<T> = None | Some(value: T)

  /** ommResult */
  datatype OmmResult =
    | SUCCESS
    | FAILURE
    | INVALID_ARGUMENT
    | INSUFFICIENT_SCRATCH_MEMORY
    | NOT_IMPLEMENTED
    | WORKLOAD_TOO_BIG

  /** ommOpacityState, numbered 0..3 as in the header. */
  datatype OpacityState = Transparent | Opaque | UnknownTransparent | UnknownOpaque

  function StateCode(s: OpacityState): (c: nat)
    ensures c < 4
  {
    match s
    case Transparent => 0
    case Opaque => 1
    case UnknownTransparent => 2
    case UnknownOpaque => 3
  }

  function StateOfCode(c: nat): (s: OpacityState)
    requires c < 4
    ensures StateCode(s) == c
  {
    if c == 0 then Transparent else if c == 1 then Opaque else if c == 2 then UnknownTransparent else UnknownOpaque
  }

  /** ommSpecialIndex: the negative entries of an index buffer. */
  const FullyTransparent: int := -1
  const FullyOpaque: int := -2
  const FullyUnknownTransparent: int := -3
  const FullyUnknownOpaque: int := -4

  /** ommFormat */
  datatype OmmFormat = FormatINVALID | OC1_2_State | OC1_4_State | FormatMAX_NUM

  /** The numeric value of an ommFormat, as the 16-bit `format` fields of
    * the micromap descriptors and usage counts store it. */
  function FormatCode(f: OmmFormat): (c: nat)
    ensures c < 4
  {
    match f
    case FormatINVALID => 0
    case OC1_2_State => 1
    case OC1_4_State => 2
    case FormatMAX_NUM => 3
  }

  /** ommUnknownStatePromotion */
  datatype UnknownStatePromotion = Nearest | ForceOpaque | ForceTransparent | PromotionMAX_NUM

  /** ommBakerType, with its numeric values: the handle tag stores them. */
  datatype BakerType = GPU | CPU | BakerMAX_NUM

  function BakerTypeCode(t: BakerType): (c: nat)
    ensures c < 8
  {
    match t
    case GPU => 0
    case CPU => 1
    case BakerMAX_NUM => 2
  }

  /** ommTexCoordFormat */
  datatype TexCoordFormat = UV16_UNORM | UV16_FLOAT | UV32_FLOAT | TexCoordMAX_NUM

  /** ommIndexFormat */
  datatype IndexFormat = I16_UINT | I32_UINT | IndexMAX_NUM

  /** ommTextureAddressMode */
  datatype TextureAddressMode = Wrap | Mirror | Clamp | Border | MirrorOnce | AddressMAX_NUM

  /** ommCpuTextureFormat */
  datatype CpuTextureFormat = UNORM8 | FP32 | CpuTextureMAX_NUM

  /** ommCpuTextureFlags_DisableZOrder, the only texture flag bit. */
  const DisableZOrder: nat := 1

  /** ommCpuOpacityMicromapDesc: byte offset (32-bit) of the micromap in the
    * array data, its subdivision level and format code (16-bit each). */
  datatype MicromapDesc = MicromapDesc(offset: nat, subdivisionLevel: nat, format: nat)

  /** ommCpuOpacityMicromapUsageCount */
  datatype UsageCount = UsageCount(count: nat, subdivisionLevel: nat, format: nat)

  /** ommCpuBakeResultDesc. Each pointer/count pair of the C struct is a
    * sequence (what the pointer points at) next to the stored count. The
    * index buffer is the raw bytes the pointer refers to, because readers
    * reinterpret it according to `indexFormat`. */
  datatype BakeResultDesc = BakeResultDesc(
    arrayData: seq<byte>,
    arrayDataSize: nat,
    descArray: seq<MicromapDesc>,
    descArrayCount: nat,
    descArrayHistogram: seq<UsageCount>,
    descArrayHistogramCount: nat,
    indexBuffer: seq<byte>,
    indexCount: nat,
    indexFormat: IndexFormat,
    indexHistogram: seq<UsageCount>,
    indexHistogramCount: nat)
}
