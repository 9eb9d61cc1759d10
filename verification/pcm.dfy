/** The audio sample format of the live session: float samples in [-1, 1] become signed 16-bit
    little-endian integers on the way out (`floatTo16BitPCM`), and 16-bit integers become
    floats again on the way in (the `Int16Array` view and the division by 32768 in
    `playAudio`). */
module Pcm {
  import opened Wrappers
  import opened Bytes

  type int16 = x: int | -0x8000 <= x < 0x8000

  /** `Math.max(-1, Math.min(1, x))`. */
  function Clamp(x: real): (s: real)
    ensures -1.0 <= s <= 1.0
    ensures -1.0 <= x <= 1.0 ==> s == x
    ensures x > 1.0 ==> s == 1.0
    ensures x < -1.0 ==> s == -1.0
  {
    if x > 1.0 then 1.0 else if x < -1.0 then -1.0 else x
  }

  /** ECMAScript's conversion of a finite number to an integer: truncation toward zero. */
  function Truncate(r: real): (i: int)
    ensures 0.0 <= r ==> 0 <= i && i as real <= r < i as real + 1.0
    ensures r < 0.0 ==> i <= 0 && i as real - 1.0 < r <= i as real
  {
    if r >= 0.0 then r.Floor else -((-r).Floor)
  }

  /** ECMAScript ToInt16, which `DataView.setInt16` applies to the value it stores: truncate,
      then wrap modulo 2^16 into [-32768, 32767]. */
  function ToInt16(r: real): (v: int16)
    ensures (v - Truncate(r)) % 0x10000 == 0
    ensures -0x8000 <= Truncate(r) < 0x8000 ==> v == Truncate(r)
  {
    var m := Truncate(r) % 0x10000;
    if m >= 0x8000 then m - 0x10000 else m
  }

  /** The 16-bit value `floatTo16BitPCM` stores for the sample `x`: the clamped sample scaled
      by 32768 when negative and by 32767 otherwise. The scaled value never leaves the 16-bit
      range, so the wrap-around of ToInt16 never takes effect. */
  function Quantize(x: real): (v: int16)
    ensures x >= 1.0 ==> v == 0x7FFF
    ensures x <= -1.0 ==> v == -0x8000
    ensures 0.0 <= x <= 1.0 ==> v as real <= x * 32767.0 < v as real + 1.0
    ensures -1.0 <= x < 0.0 ==> v as real - 1.0 < x * 32768.0 <= v as real
  {
    var s := Clamp(x);
    ToInt16(if s < 0.0 then s * 32768.0 else s * 32767.0)
  }

  /** Louder input never gives a smaller sample. */
  lemma QuantizeMonotone(x: real, y: real)
    requires x <= y
    ensures Quantize(x) <= Quantize(y)
  {
    var cx, cy := Clamp(x), Clamp(y);
    assert cx <= cy;
    if cx >= 0.0 {
      assert Quantize(x) as real <= cx * 32767.0 <= cy * 32767.0 < Quantize(y) as real + 1.0;
    } else if cy < 0.0 {
      assert Quantize(x) as real - 1.0 < cx * 32768.0 <= cy * 32768.0 <= Quantize(y) as real;
    }
  }

  /** `channelData[i] = dataInt16[i] / 32768.0` in `playAudio`. */
  function Dequantize(v: int16): (x: real)
    ensures -1.0 <= x < 1.0
    ensures (x < 0.0) == (v < 0)
  {
    v as real / 32768.0
  }

  /** Sending a sample and playing it back loses less than one step of the 16-bit scale:
      the played sample lies within 2/32768 below and 1/32768 above the clamped original. */
  lemma QuantizationError(x: real)
    ensures Clamp(x) - 2.0 / 32768.0 < Dequantize(Quantize(x)) < Clamp(x) + 1.0 / 32768.0
  {
    var s := Clamp(x);
    var q := Quantize(x);
    if s >= 0.0 {
      assert q as real <= s * 32767.0 < q as real + 1.0;
    } else {
      assert q as real - 1.0 < s * 32768.0 <= q as real;
    }
  }

  // ---------------------------------------------------------------------------
  // little-endian byte layout
  // ---------------------------------------------------------------------------

  /** The low byte of the two's-complement form of `v`. */
  function LowByte(v: int16): byte
  {
    (v % 0x10000) % 0x100
  }

  /** The high byte of the two's-complement form of `v`. */
  function HighByte(v: int16): byte
  {
    (v % 0x10000) / 0x100
  }

  /** The 16-bit integer a little-endian byte pair holds. */
  function FromBytes(lo: byte, hi: byte): int16
  {
    var u := lo + 0x100 * hi;
    if u >= 0x8000 then u - 0x10000 else u
  }

  /** Reading a 16-bit integer back from its two bytes gives the integer. */
  lemma BytePairRoundTrip(v: int16)
    ensures FromBytes(LowByte(v), HighByte(v)) == v
  {
    var u := v % 0x10000;
    assert u == if v < 0 then v + 0x10000 else v;
    assert LowByte(v) + 0x100 * HighByte(v) == u;
  }

  /** The bytes `floatTo16BitPCM` writes for `samples`: sample i at byte offsets 2i (low) and
      2i + 1 (high). */
  function EncodeSamples(samples: seq<real>): (bytes: seq<byte>)
    ensures |bytes| == 2 * |samples|
  {
    seq(2 * |samples|, k requires 0 <= k < 2 * |samples| =>
      if k % 2 == 0 then LowByte(Quantize(samples[k / 2])) else HighByte(Quantize(samples[k / 2])))
  }

  /** `floatTo16BitPCM(view, offset, input)`: writes each sample, in order, as a little-endian
      16-bit integer at `offset`, `offset + 2`, ...; the rest of the buffer is untouched.
      `setInt16` outside the buffer would throw a RangeError, which the only caller, whose
      buffer is exactly twice the sample count, never triggers. */
  method FloatTo16BitPcm(view: seq<byte>, offset: nat, input: seq<real>) returns (out: seq<byte>)
    requires offset + 2 * |input| <= |view|
    ensures |out| == |view|
    ensures out[..offset] == view[..offset]
    ensures out[offset + 2 * |input|..] == view[offset + 2 * |input|..]
    ensures out[offset..offset + 2 * |input|] == EncodeSamples(input)
  {
    var encoded := EncodeSamples(input);
    out := view;
    var i := 0;
    var pos := offset;
    while i < |input|
      invariant 0 <= i <= |input| && pos == offset + 2 * i
      invariant |out| == |view|
      invariant forall k | 0 <= k < offset :: out[k] == view[k]
      invariant forall k | pos <= k < |view| :: out[k] == view[k]
      invariant forall k | offset <= k < pos :: out[k] == encoded[k - offset]
    {
      var v := Quantize(input[i]);
      assert encoded[2 * i] == LowByte(v) && encoded[2 * i + 1] == HighByte(v);
      out := out[pos := LowByte(v)][pos + 1 := HighByte(v)];
      i := i + 1;
      pos := pos + 2;
    }
    assert out[offset..offset + 2 * |input|] == encoded;
  }

  /** The bytes of one captured microphone frame: a zeroed buffer of twice the sample count,
      filled from offset 0. */
  method CaptureFrame(input: seq<real>) returns (bytes: seq<byte>)
    ensures bytes == EncodeSamples(input)
  {
    var buffer: seq<byte> := seq(2 * |input|, _ => 0);
    bytes := FloatTo16BitPcm(buffer, 0, input);
    assert bytes == bytes[0..2 * |input|];
  }

  /** `new Int16Array(bytes.buffer)` on a little-endian platform. A byte count that is not
      a multiple of two makes the constructor throw a RangeError. */
  function DecodeSamples(bytes: seq<byte>): (r: Result<seq<int16>, string>)
    ensures r.Success? <==> |bytes| % 2 == 0
    ensures r.Success? ==> |r.value| == |bytes| / 2
  {
    if |bytes| % 2 != 0 then Failure("RangeError")
    else Success(seq(|bytes| / 2, i requires 0 <= i < |bytes| / 2 => FromBytes(bytes[2 * i], bytes[2 * i + 1])))
  }

  function QuantizeAll(samples: seq<real>): (r: seq<int16>)
    ensures |r| == |samples|
  {
    seq(|samples|, i requires 0 <= i < |samples| => Quantize(samples[i]))
  }

  /** Decoding what was encoded gives back the 16-bit sample of every float sample. */
  lemma DecodeEncodeSamples(samples: seq<real>)
    ensures DecodeSamples(EncodeSamples(samples)) == Success(QuantizeAll(samples))
  {
    assert (2 * |samples|) % 2 == 0 && (2 * |samples|) / 2 == |samples|;
    var decoded := DecodeSamples(EncodeSamples(samples)).value;
    forall i | 0 <= i < |samples| ensures decoded[i] == QuantizeAll(samples)[i] {
      SampleRoundTrip(samples, i);
    }
    assert decoded == QuantizeAll(samples);
  }

  lemma SampleRoundTrip(samples: seq<real>, i: nat)
    requires i < |samples|
    ensures |EncodeSamples(samples)| % 2 == 0
    ensures DecodeSamples(EncodeSamples(samples)).Success?
    ensures |DecodeSamples(EncodeSamples(samples)).value| == |samples|
    ensures DecodeSamples(EncodeSamples(samples)).value[i] == Quantize(samples[i])
  {
    assert (2 * |samples|) % 2 == 0 && (2 * |samples|) / 2 == |samples|;
    EncodedPair(samples, i);
    DecodedAt(EncodeSamples(samples), i);
    BytePairRoundTrip(Quantize(samples[i]));
  }

  lemma DecodedAt(bytes: seq<byte>, i: nat)
    requires |bytes| % 2 == 0 && i < |bytes| / 2
    ensures DecodeSamples(bytes).Success?
    ensures DecodeSamples(bytes).value[i] == FromBytes(bytes[2 * i], bytes[2 * i + 1])
  {
  }

  lemma EncodedPair(samples: seq<real>, i: nat)
    requires i < |samples|
    ensures EncodeSamples(samples)[2 * i] == LowByte(Quantize(samples[i]))
    ensures EncodeSamples(samples)[2 * i + 1] == HighByte(Quantize(samples[i]))
  {
    assert (2 * i) / 2 == i && (2 * i + 1) / 2 == i;
    assert (2 * i) % 2 == 0 && (2 * i + 1) % 2 == 1;
  }

  /** The float samples `playAudio` writes into the playback buffer. */
  function ChannelData(samples: seq<int16>): (r: seq<real>)
    ensures |r| == |samples|
    ensures forall i | 0 <= i < |r| :: -1.0 <= r[i] < 1.0
  {
    seq(|samples|, i requires 0 <= i < |samples| => Dequantize(samples[i]))
  }
}
