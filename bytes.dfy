/** Bytes in memory and in a stream: little-endian fixed-width encoding of
  * unsigned and two's-complement integers, which is how every multi-byte
  * field of the SDK's buffers and blobs is laid out on the supported
  * (little-endian) platforms. */
module Bytes {
  import opened Bits

  type byte = x: int | 0 <= x < 256

  /** 256^n: one more than the largest n-byte unsigned value. */
  function Pow256(n: nat): (r: nat)
    ensures r >= 1
  {
    if n == 0 then 1 else 256 * Pow256(n - 1)
  }

  /** The n-byte little-endian image of v: byte k holds digit k of v in base 256. */
  function EncodeLE(v: nat, n: nat): (r: seq<byte>)
    ensures |r| == n
  {
    if n == 0 then [] else [v % 256] + EncodeLE(v / 256, n - 1)
  }

  /** The unsigned value a little-endian byte string denotes. */
  function DecodeLE(bs: seq<byte>): nat
  {
    if |bs| == 0 then 0 else bs[0] + 256 * DecodeLE(bs[1..])
  }

  lemma {:induction false} DecodeBound(bs: seq<byte>)
    ensures DecodeLE(bs) < Pow256(|bs|)
  {
    if |bs| > 0 {
      DecodeBound(bs[1..]);
    }
  }

  /** Decoding an encoding gives the value back when it fits in n bytes. */
  lemma {:induction false} DecodeEncode(v: nat, n: nat)
    requires v < Pow256(n)
    ensures DecodeLE(EncodeLE(v, n)) == v
  {
    if n > 0 {
      var e := EncodeLE(v, n);
      assert e[1..] == EncodeLE(v / 256, n - 1);
      DecodeEncode(v / 256, n - 1);
    }
  }

  /** Encoding what was decoded gives the same bytes back. */
  lemma {:induction false} EncodeDecode(bs: seq<byte>)
    ensures EncodeLE(DecodeLE(bs), |bs|) == bs
  {
    if |bs| > 0 {
      var v := DecodeLE(bs);
      var rest := DecodeLE(bs[1..]);
      DivModUnique(v, 256, rest, bs[0]);
      EncodeDecode(bs[1..]);
    }
  }

  /** Reading the n bytes that start at `at`, as an unsigned value. */
  function ReadUnsigned(buf: seq<byte>, at: nat, n: nat): (r: nat)
    requires at + n <= |buf|
    ensures r < Pow256(n)
  {
    DecodeBound(buf[at..at + n]);
    DecodeLE(buf[at..at + n])
  }

  /** Two's complement: the signed value of an unsigned n-byte pattern (n > 0). */
  function AsSigned(u: nat, n: nat): (r: int)
    requires n > 0 && u < Pow256(n)
    ensures -(Pow256(n) / 2) <= r < Pow256(n) / 2
    ensures r % Pow256(n) == u
  {
    HalfPow256(n);
    if u >= Pow256(n) / 2 then
      DivModUnique(u - Pow256(n), Pow256(n), -1, u);
      u - Pow256(n)
    else
      DivModUnique(u, Pow256(n), 0, u);
      u
  }

  lemma HalfPow256(n: nat)
    requires n > 0
    ensures Pow256(n) == 2 * (Pow256(n) / 2)
  {
    assert Pow256(n) == 256 * Pow256(n - 1);
  }

  /** A signed value is the two's-complement reading of its own bit pattern. */
  lemma AsSignedOfPattern(x: int, n: nat)
    requires n > 0 && -(Pow256(n) / 2) <= x < Pow256(n) / 2
    ensures AsSigned(x % Pow256(n), n) == x
  {
    HalfPow256(n);
    if x < 0 {
      DivModUnique(x, Pow256(n), -1, x + Pow256(n));
    } else {
      DivModUnique(x, Pow256(n), 0, x);
    }
  }

  /** The little-endian image of a signed value in n bytes. */
  function EncodeSigned(x: int, n: nat): (r: seq<byte>)
    ensures |r| == n
  {
    EncodeLE(x % Pow256(n), n)
  }

  lemma SignedRoundTrip(x: int, n: nat)
    requires n > 0 && -(Pow256(n) / 2) <= x < Pow256(n) / 2
    ensures DecodeLE(EncodeSigned(x, n)) == x % Pow256(n)
    ensures AsSigned(DecodeLE(EncodeSigned(x, n)), n) == x
  {
    DecodeEncode(x % Pow256(n), n);
    AsSignedOfPattern(x, n);
  }

  /** Concatenation of the n-byte images of a sequence of values. */
  function EncodeAll(vs: seq<nat>, n: nat): (r: seq<byte>)
    ensures |r| == n * |vs|
  {
    if |vs| == 0 then [] else EncodeLE(vs[0], n) + EncodeAll(vs[1..], n)
  }

  /** Entry i of a packed array is the n bytes at offset n*i. */
  lemma {:induction false} EncodeAllSlice(vs: seq<nat>, n: nat, i: nat)
    requires i < |vs|
    ensures n * i + n <= |EncodeAll(vs, n)|
    ensures EncodeAll(vs, n)[n * i..n * i + n] == EncodeLE(vs[i], n)
  {
    var head, tail := EncodeLE(vs[0], n), EncodeAll(vs[1..], n);
    assert EncodeAll(vs, n) == head + tail;
    if i == 0 {
      assert (head + tail)[0..n] == head;
    } else {
      EncodeAllSlice(vs[1..], n, i - 1);
      assert vs[1..][i - 1] == vs[i];
      MulPred(n, i);
      AppendSlice(head, tail, n * (i - 1), n);
    }
  }

  lemma MulNat(n: nat, i: nat)
    ensures n * i >= 0
  {
  }

  lemma MulPred(n: nat, i: nat)
    requires i > 0
    ensures n * i == n + n * (i - 1)
  {
  }

  /** A range inside the second half of a + b is a range of b. */
  lemma AppendSlice(a: seq<byte>, b: seq<byte>, j: nat, m: nat)
    requires j + m <= |b|
    ensures (a + b)[|a| + j..|a| + j + m] == b[j..j + m]
  {
  }

  lemma PackedEntry(vs: seq<nat>, n: nat, i: nat)
    requires i < |vs| && vs[i] < Pow256(n)
    ensures n * i + n <= |EncodeAll(vs, n)|
    ensures ReadUnsigned(EncodeAll(vs, n), n * i, n) == vs[i]
  {
    var e := EncodeAll(vs, n);
    EncodeAllSlice(vs, n, i);
    MulNat(n, i);
    var slice := e[n * i..n * i + n];
    DecodeEncode(vs[i], n);
    assert DecodeLE(slice) == vs[i];
  }

  /** Byte j of the encoding is digit j of v in base 256. */
  lemma {:induction false} EncodeLEByte(v: nat, n: nat, j: nat)
    requires j < n
    ensures EncodeLE(v, n)[j] == (v / Pow2(8 * j)) % 256
  {
    if j > 0 {
      EncodeLEByte(v / 256, n - 1, j - 1);
      assert Pow2(8) == 256;
      Pow2Add(8, 8 * (j - 1));
      DivDiv(v, 256, Pow2(8 * (j - 1)));
    }
  }

  /** Equal ranges have equal sub-ranges. */
  lemma SubSlice(a: seq<byte>, p: nat, b: seq<byte>, q: nat, n: nat, i: nat, m: nat)
    requires p + n <= |a| && q + n <= |b| && a[p..p + n] == b[q..q + n] && i + m <= n
    ensures a[p + i..p + i + m] == b[q + i..q + i + m]
  {
    var x, y := a[p + i..p + i + m], b[q + i..q + i + m];
    forall k | 0 <= k < m
      ensures x[k] == y[k]
    {
      assert x[k] == a[p..p + n][i + k];
      assert y[k] == b[q..q + n][i + k];
    }
    assert x == y;
  }
}
