/** texture.h: mapping integer texel coordinates into a texture under the
  * five address modes. Coordinates and sizes are C `int`s; the casts to
  * `uint32_t` that some modes make are written out as reduction modulo
  * 2^32. */
module Texture {
  import opened Bits
  import opened OmmTypes

  /** The sentinels returned for an unknown address mode and for a texel
    * outside a bordered texture. */
  const kTexCoordInvalid: int := 0x7FFF_FFFF
  const kTexCoordBorder: int := 0x7FFF_FFFE

  datatype Int2 = Int2(x: int, y: int)

  const kTexCoordInvalid2: Int2 := Int2(kTexCoordInvalid, kTexCoordInvalid)

  /** A texture extent: at least one texel and a positive `int` per axis. */
  predicate ValidSize(size: int) {
    1 <= size < 0x8000_0000
  }

  /** The conversion of an `int` to `uint32_t`. */
  function ToU32(x: int): (r: nat)
    ensures r < U32_LIMIT
  {
    x % U32_LIMIT
  }

  /** The reflection of negative coordinates about -1/2: x < 0 maps to -x-1.
    * This is what both `abs(x) - (x < 0)` and the truncation of
    * `abs(x + 0.5)` compute for an integer x. */
  function Reflect(x: int): (a: nat)
    ensures x >= 0 ==> a == x
    ensures x < 0 ==> a + x == -1
  {
    if x < 0 then -x - 1 else x
  }

  function ClampTo(x: int, lo: int, hi: int): int
    requires lo <= hi
  {
    if x < lo then lo else if x > hi then hi else x
  }

  // ---- Wrap ----

  /** Wrap for a power-of-two size: `uint(x) & uint(size - 1)`. */
  function WrapPow2(x: int, size: int): nat
    requires ValidSize(size)
  {
    BitAnd(ToU32(x), size - 1)
  }

  /** Wrap for any other size, as the header writes it: `uint(x) % uint(size)`.
    * A negative coordinate is first read as the unsigned number x + 2^32. */
  function WrapAsWritten(x: int, size: int): nat
    requires ValidSize(size)
  {
    ToU32(x) % size
  }

  /** Wrap as a repeating texture needs it: x modulo size, also for negative x.
    * The address-mode dispatch below uses this corrected repeat for sizes
    * that are not a power of two; WrapAsWritten is the header's formula, and
    * WrapAsWrittenAgrees says where the two coincide. */
  function WrapRepeat(x: int, size: int): (r: nat)
    requires ValidSize(size)
    ensures r < size
  {
    x % size
  }

  // ---- Mirror ----

  /** Mirror for a power-of-two size 2^log2: the reflected coordinate's bit
    * log2 says whether the tile is flipped; its low bits give the texel. */
  function MirrorPow2(x: int, size: int, log2: nat): int
    requires ValidSize(size) && log2 < 32
  {
    var a := Reflect(x);
    var flipped := BitAnd(ShiftRight(a, log2), 1) == 1;
    var wrapped := BitAnd(ToU32(a), size - 1);
    if flipped then size - wrapped - 1 else wrapped
  }

  /** Mirror for any size: the reflected coordinate's tile number (a / size)
    * says whether it is flipped; a % size gives the texel. */
  function MirrorAny(x: int, size: int): int
    requires ValidSize(size)
  {
    var a := Reflect(x);
    var flipped := (a / size) % 2 == 1;
    var wrapped := a % size;
    if flipped then size - wrapped - 1 else wrapped
  }

  /** The reference triangle wave of period 2 * size: up from 0 to size - 1,
    * then back down. */
  function TriangleWave(t: int, size: int): (r: int)
    requires ValidSize(size)
    ensures 0 <= r < size
  {
    var u := t % (2 * size);
    if u < size then u else 2 * size - 1 - u
  }

  // ---- Clamp, Border, MirrorOnce ----

  function ClampCoord(x: int, size: int): int
    requires ValidSize(size)
  {
    ClampTo(x, 0, size - 1)
  }

  function BorderCoord(x: int, size: int): int {
    if x >= size || x < 0 then kTexCoordBorder else x
  }

  function MirrorOnceCoord(x: int, size: int): int
    requires ValidSize(size)
  {
    ClampTo(Reflect(x), 0, size - 1)
  }

  /** One component of GetTexCoord<mode, pow2>. */
  function AddressCoord(mode: TextureAddressMode, isPow2: bool, x: int, size: int, log2: nat): int
    requires ValidSize(size) && log2 < 32
  {
    match mode
    case Wrap => if isPow2 then WrapPow2(x, size) else WrapRepeat(x, size)
    case Mirror => if isPow2 then MirrorPow2(x, size, log2) else MirrorAny(x, size)
    case Clamp => ClampCoord(x, size)
    case Border => BorderCoord(x, size)
    case MirrorOnce => MirrorOnceCoord(x, size)
    case AddressMAX_NUM => kTexCoordInvalid
  }

  predicate ValidLog2(log2: Int2) {
    0 <= log2.x < 32 && 0 <= log2.y < 32
  }

  /** GetTexCoord, both the runtime dispatch and the template it selects:
    * every mode works on the two components separately, and an unknown mode
    * gives kTexCoordInvalid2. */
  function GetTexCoord(mode: TextureAddressMode, isPow2: bool, texCoord: Int2, texSize: Int2, texSizeLog2: Int2): (r: Int2)
    requires ValidSize(texSize.x) && ValidSize(texSize.y) && ValidLog2(texSizeLog2)
    ensures mode == AddressMAX_NUM ==> r == kTexCoordInvalid2
    ensures mode != AddressMAX_NUM ==>
      r.x == AddressCoord(mode, isPow2, texCoord.x, texSize.x, texSizeLog2.x) &&
      r.y == AddressCoord(mode, isPow2, texCoord.y, texSize.y, texSizeLog2.y)
  {
    if mode == AddressMAX_NUM then kTexCoordInvalid2
    else Int2(AddressCoord(mode, isPow2, texCoord.x, texSize.x, texSizeLog2.x),
              AddressCoord(mode, isPow2, texCoord.y, texSize.y, texSizeLog2.y))
  }

  /** The four texels of a bilinear footprint, indexed by TexelOffset. */
  datatype Gather4 = Gather4(i0x0: Int2, i1x0: Int2, i0x1: Int2, i1x1: Int2)

  /** GatherTexCoord4: address p and p + (1, 1) and combine their components. */
  function GatherTexCoord4(mode: TextureAddressMode, isPow2: bool, texCoord: Int2, texSize: Int2, texSizeLog2: Int2): Gather4
    requires ValidSize(texSize.x) && ValidSize(texSize.y) && ValidLog2(texSizeLog2)
  {
    var o := GetTexCoord(mode, isPow2, texCoord, texSize, texSizeLog2);
    var o11 := GetTexCoord(mode, isPow2, Int2(texCoord.x + 1, texCoord.y + 1), texSize, texSizeLog2);
    Gather4(Int2(o.x, o.y), Int2(o11.x, o.y), Int2(o.x, o11.y), Int2(o11.x, o11.y))
  }

  /** GetTexCoordFormatSize: bytes per texture coordinate, two components of
    * two or four bytes; the MAX_NUM sentinel is the only format without a
    * size. */
  function GetTexCoordFormatSize(format: TexCoordFormat): (n: nat)
    ensures (n == 0) == (format == TexCoordMAX_NUM)
    ensures n != 0 ==> n == 4 || n == 8
  {
    match format
    case UV16_UNORM => 4
    case UV16_FLOAT => 4
    case UV32_FLOAT => 8
    case TexCoordMAX_NUM => 0
  }

  // ---- Properties ----

  /** For a power-of-two size the mask picks the coordinate modulo the size,
    * negative coordinates included. */
  lemma WrapPow2IsRepeat(x: int, size: int, k: nat)
    requires ValidSize(size) && size == Pow2(k)
    ensures WrapPow2(x, size) == WrapRepeat(x, size)
  {
    AndLowMask(ToU32(x), k);
    U32ModPow2(x, k);
  }

  /** Reducing to 32 bits keeps the remainder by any 2^k below 2^32. */
  lemma U32ModPow2(x: int, k: nat)
    requires Pow2(k) < 0x8000_0000
    ensures ToU32(x) % Pow2(k) == x % Pow2(k)
  {
    if k > 32 {
      Pow2Grows(32, k);
      Pow2Of32();
      assert false;
    }
    Pow2Of32();
    Pow2Divides(k, 32);
    ModOfMod(x, U32_LIMIT, Pow2(k));
  }

  /** Where 2^32 is a multiple of the size (a power of two), the unsigned
    * remainder repeats with the size, and so does any non-negative
    * coordinate. */
  lemma WrapAsWrittenAgrees(x: int, size: int)
    requires ValidSize(size)
    requires U32_LIMIT % size == 0 || 0 <= x < U32_LIMIT
    ensures WrapAsWritten(x, size) == WrapRepeat(x, size)
  {
    if U32_LIMIT % size == 0 {
      ModOfMod(x, U32_LIMIT, size);
    } else {
      DivModUnique(x, U32_LIMIT, 0, x);
    }
  }

  /** ... but for a size that does not divide 2^32, a negative coordinate is
    * not wrapped: -1 in a 3-texel row lands on texel 0, not texel 2. */
  lemma WrapAsWrittenNegativeNonPow2()
    ensures WrapAsWritten(-1, 3) == 0
    ensures WrapRepeat(-1, 3) == 2
  {
  }

  /** Wrap keeps a texel inside the texture, leaves the texels of the
    * texture in place and repeats with the size. */
  lemma {:induction false} WrapRepeatProperties(x: int, size: int)
    requires ValidSize(size)
    ensures 0 <= x < size ==> WrapRepeat(x, size) == x
    ensures WrapRepeat(x + size, size) == WrapRepeat(x, size)
  {
    if 0 <= x < size {
      DivModUnique(x, size, 0, x);
    }
    DivModUnique(x + size, size, x / size + 1, x % size);
  }

  /** Both Mirror routes agree when the size is 2^log2. */
  lemma MirrorPow2IsMirrorAny(x: int, size: int, log2: nat)
    requires ValidSize(size) && log2 < 32 && size == Pow2(log2)
    ensures MirrorPow2(x, size, log2) == MirrorAny(x, size)
  {
    var a := Reflect(x);
    ShiftRightIsDiv(a, log2);
    AndLowMask(a / size, 1);
    AndLowMask(ToU32(a), log2);
    U32ModPow2(a, log2);
  }

  /** Mirror is the triangle wave of period 2 * size, read at x (its
    * negative half is the reflection of its positive half about -1/2). */
  lemma MirrorIsTriangleWave(x: int, size: int)
    requires ValidSize(size)
    ensures MirrorAny(x, size) == TriangleWave(x, size)
  {
    var a := Reflect(x);
    MirrorOfNonNegative(a, size);
    if x < 0 {
      ReflectModulo(a, 2 * size);
    }
  }

  /** For a >= 0: the tile number's parity is the half of the period a falls in. */
  lemma MirrorOfNonNegative(a: nat, size: int)
    requires ValidSize(size)
    ensures MirrorAny(a, size) == TriangleWave(a, size)
  {
    var q := a / size;
    var r := a % size;
    assert q * size == (q / 2) * (2 * size) + (q % 2) * size;
    DivModUnique(a, 2 * size, q / 2, (q % 2) * size + r);
  }

  /** -a-1 modulo m is m-1 minus (a modulo m). */
  lemma ReflectModulo(a: int, m: int)
    requires a >= 0 && m > 0
    ensures (-a - 1) % m == m - 1 - a % m
  {
    DivModUnique(-a - 1, m, -(a / m) - 1, m - 1 - a % m);
  }

  /** Hence Mirror stays inside the texture, is the identity on it, repeats
    * with period 2 * size, and is symmetric about -1/2. */
  lemma MirrorProperties(x: int, size: int)
    requires ValidSize(size)
    ensures 0 <= MirrorAny(x, size) < size
    ensures 0 <= x < size ==> MirrorAny(x, size) == x
    ensures MirrorAny(x + 2 * size, size) == MirrorAny(x, size)
    ensures MirrorAny(-1 - x, size) == MirrorAny(x, size)
  {
    MirrorIsTriangleWave(x, size);
    MirrorIsTriangleWave(x + 2 * size, size);
    MirrorIsTriangleWave(-1 - x, size);
    TrianglePeriodic(x, size);
    TriangleSymmetric(x, size);
    if 0 <= x < size {
      DivModUnique(x, 2 * size, 0, x);
    }
  }

  lemma TrianglePeriodic(x: int, size: int)
    requires ValidSize(size)
    ensures TriangleWave(x + 2 * size, size) == TriangleWave(x, size)
  {
    DivModUnique(x + 2 * size, 2 * size, x / (2 * size) + 1, x % (2 * size));
  }

  lemma TriangleSymmetric(x: int, size: int)
    requires ValidSize(size)
    ensures TriangleWave(-1 - x, size) == TriangleWave(x, size)
  {
    if x >= 0 {
      ReflectModulo(x, 2 * size);
    } else {
      ReflectModulo(-1 - x, 2 * size);
    }
  }

  /** Clamp moves a coordinate to the nearest texel of the texture. */
  lemma ClampProperties(x: int, size: int)
    requires ValidSize(size)
    ensures 0 <= x < size ==> ClampCoord(x, size) == x
    ensures x < 0 ==> ClampCoord(x, size) == 0
    ensures x >= size ==> ClampCoord(x, size) == size - 1
  {
  }

  /** Border keeps texels of the texture and marks every other coordinate. */
  lemma BorderProperties(x: int, size: int)
    ensures 0 <= x < size ==> BorderCoord(x, size) == x
    ensures !(0 <= x < size) ==> BorderCoord(x, size) == kTexCoordBorder
  {
  }

  /** MirrorOnce reflects about -1/2 once, then clamps: it agrees with
    * Mirror within one reflection of the texture and with Clamp to the right. */
  lemma MirrorOnceProperties(x: int, size: int)
    requires ValidSize(size)
    ensures 0 <= MirrorOnceCoord(x, size) < size
    ensures MirrorOnceCoord(-1 - x, size) == MirrorOnceCoord(x, size)
    ensures -size <= x < size ==> MirrorOnceCoord(x, size) == MirrorAny(x, size)
    ensures x >= 0 ==> MirrorOnceCoord(x, size) == ClampCoord(x, size)
  {
    if -size <= x < size {
      MirrorProperties(x, size);
      MirrorProperties(-1 - x, size);
    }
  }

  /** The four gathered texels are the addressed neighbours p, p + (1, 0),
    * p + (0, 1) and p + (1, 1): addressing treats the axes separately. */
  lemma GatherIsNeighbours(mode: TextureAddressMode, isPow2: bool, p: Int2, texSize: Int2, texSizeLog2: Int2)
    requires ValidSize(texSize.x) && ValidSize(texSize.y) && ValidLog2(texSizeLog2)
    ensures var g := GatherTexCoord4(mode, isPow2, p, texSize, texSizeLog2);
      g.i0x0 == GetTexCoord(mode, isPow2, p, texSize, texSizeLog2) &&
      g.i1x0 == GetTexCoord(mode, isPow2, Int2(p.x + 1, p.y), texSize, texSizeLog2) &&
      g.i0x1 == GetTexCoord(mode, isPow2, Int2(p.x, p.y + 1), texSize, texSizeLog2) &&
      g.i1x1 == GetTexCoord(mode, isPow2, Int2(p.x + 1, p.y + 1), texSize, texSizeLog2)
  {
  }
}
