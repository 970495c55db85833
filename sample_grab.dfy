/** Sample decoding of the ADS131M driver.

    A sample grab holds, for each of its channels, the three raw bytes of one
    24-bit big-endian two's-complement ADC sample. The channel count is the
    length of the grab's data and is fixed when the grab is built. */
module Samples {

  import opened Bytes

  /** The three raw bytes of one channel's sample, most significant first. */
  type SampleBytes = s: seq<Byte> | |s| == 3 witness [0, 0, 0]

  /** One ADC sample grab for all channels. */
  datatype SampleGrab = SampleGrab(data: seq<SampleBytes>)

  const I24Min: int := -0x80_0000
  const I24Max: int := 0x7F_FFFF

  /** A signed 24-bit integer. */
  type I24 = x: int | -0x80_0000 <= x <= 0x7F_FFFF

  /** A signed 32-bit integer. */
  type I32 = x: int | -0x8000_0000 <= x <= 0x7FFF_FFFF

  /** A reference to the stored sample bytes: rebuilding a grab from them gives
      the same grab. */
  function AsBytes(g: SampleGrab): (bytes: seq<SampleBytes>)
    ensures |bytes| == |g.data|
    ensures SampleGrab(bytes) == g
  {
    g.data
  }

  /** The stored sample bytes, taken by value: rebuilding a grab from them
      gives the same grab. */
  function ToBytes(g: SampleGrab): (bytes: seq<SampleBytes>)
    ensures |bytes| == |g.data|
    ensures SampleGrab(bytes) == g
  {
    g.data
  }

  /** The 24-bit big-endian two's-complement encoding of a signed 24-bit
      integer; the reference against which decoding is checked. */
  function I24ToBeBytes(v: I24): SampleBytes
  {
    var raw := if v < 0 then v + 0x100_0000 else v;
    [(raw / 0x1_0000) as Byte, (raw / 0x100 % 0x100) as Byte, (raw % 0x100) as Byte]
  }

  /** The signed value of three big-endian two's-complement bytes: the value
      lies in the 24-bit range, is negative exactly when the top bit of the
      first byte is set, and encodes back to the same bytes. */
  function I24FromBeBytes(b: SampleBytes): (v: I24)
    ensures (v < 0) == (b[0] >= 0x80)
    ensures I24ToBeBytes(v) == b
  {
    var raw := (b[0] as int) * 0x1_0000 + (b[1] as int) * 0x100 + b[2] as int;
    assert raw / 0x1_0000 == b[0] as int && raw / 0x100 % 0x100 == b[1] as int && raw % 0x100 == b[2] as int;
    if b[0] >= 0x80 then raw - 0x100_0000 else raw
  }

  /** Every signed 24-bit integer is the decoding of its own encoding, so
      decoding is a bijection between byte triples and the 24-bit range. */
  lemma I24BytesRoundTrip(v: I24)
    ensures I24FromBeBytes(I24ToBeBytes(v)) == v
  {
  }

  /** The boundary samples: the largest and the smallest 24-bit values, one,
      zero and minus one. */
  lemma I24TestVectors()
    ensures I24FromBeBytes([0x7F, 0xFF, 0xFF]) == 8_388_607
    ensures I24FromBeBytes([0x00, 0x00, 0x01]) == 1
    ensures I24FromBeBytes([0x00, 0x00, 0x00]) == 0
    ensures I24FromBeBytes([0xFF, 0xFF, 0xFF]) == -1
    ensures I24FromBeBytes([0x80, 0x00, 0x00]) == -8_388_608
  {
  }

  /** Decodes every channel to a signed 24-bit integer; channel i's value is
      the decoding of channel i's bytes and of nothing else. */
  method IntoI24Array(g: SampleGrab) returns (values: seq<I24>)
    ensures |values| == |g.data|
    ensures forall i :: 0 <= i < |g.data| ==> values[i] == I24FromBeBytes(g.data[i])
  {
    var a := new I24[|g.data|](_ => 0);
    for idx := 0 to a.Length
      invariant forall k :: 0 <= k < idx ==> a[k] == I24FromBeBytes(g.data[k])
    {
      a[idx] := I24FromBeBytes(g.data[idx]);
    }
    values := a[..];
  }

  /** Decodes every channel to a signed 32-bit integer, sign-extended from 24
      bits; channel i's value is the decoding of channel i's bytes, so it lies
      in the 24-bit range. */
  method IntoI32Array(g: SampleGrab) returns (values: seq<I32>)
    ensures |values| == |g.data|
    ensures forall i :: 0 <= i < |g.data| ==> values[i] == I24FromBeBytes(g.data[i])
    ensures forall i :: 0 <= i < |g.data| ==> I24Min <= values[i] <= I24Max
  {
    var a := new I32[|g.data|](_ => 0);
    for idx := 0 to a.Length
      invariant forall k :: 0 <= k < idx ==> a[k] == I24FromBeBytes(g.data[k])
    {
      a[idx] := I24FromBeBytes(g.data[idx]);
    }
    values := a[..];
  }

  /** The divisor that scales a sample into [-1, 1]: 8388608 (the magnitude of
      the 24-bit minimum) for a negative sample, 8388607 (the 24-bit maximum)
      otherwise. No sample exceeds it in magnitude, and only the two extreme
      samples reach it. */
  function FloatDivisor(v: I24): (d: int)
    ensures d > 0 && -d <= v <= d
    ensures (v == -d) == (v == I24Min)
    ensures (v == d) == (v == I24Max)
  {
    if v < 0 then -I24Min else I24Max
  }

  /** One sample scaled into the unit interval (the exact quotient): only the
      most negative sample reaches -1, only the most positive reaches +1, zero
      maps to zero and the sign is kept. */
  function NormalizedSample(v: I24): (x: real)
    ensures -1.0 <= x <= 1.0
    ensures (x == -1.0) == (v == I24Min)
    ensures (x == 1.0) == (v == I24Max)
    ensures (x == 0.0) == (v == 0)
    ensures (x < 0.0) == (v < 0)
  {
    (v as real) / (FloatDivisor(v) as real)
  }

  /** The divisor depends on the sign of the sample alone: all negative
      samples share one divisor, and all other samples share another. With
      the extremes of `FloatDivisor`, this pins the divisor of every sample:
      8388608 below zero and 8388607 otherwise. */
  lemma FloatDivisorBySign(u: I24, v: I24)
    ensures (u < 0) == (v < 0) ==> FloatDivisor(u) == FloatDivisor(v)
    ensures u < 0 ==> FloatDivisor(u) == FloatDivisor(I24Min)
    ensures u >= 0 ==> FloatDivisor(u) == FloatDivisor(I24Max)
  {
  }

  /** Samples of the same sign are scaled by the same factor: their scaled
      values are in the same ratio as the samples. */
  lemma NormalizedSampleBySign(u: I24, v: I24)
    requires (u < 0) == (v < 0)
    ensures NormalizedSample(u) * (v as real) == NormalizedSample(v) * (u as real)
  {
  }

  /** Scales every channel into [-1, 1]; channel i's value is the scaled
      decoding of channel i's bytes. */
  method IntoFloats(g: SampleGrab) returns (values: seq<real>)
    ensures |values| == |g.data|
    ensures forall i :: 0 <= i < |g.data| ==> values[i] == NormalizedSample(I24FromBeBytes(g.data[i]))
    ensures forall i :: 0 <= i < |g.data| ==> -1.0 <= values[i] <= 1.0
  {
    var a := new real[|g.data|](_ => 0.0);
    for idx := 0 to a.Length
      invariant forall k :: 0 <= k < idx ==> a[k] == NormalizedSample(I24FromBeBytes(g.data[k]))
    {
      var sample := I24FromBeBytes(g.data[idx]);
      a[idx] := NormalizedSample(sample);
    }
    values := a[..];
  }
}
