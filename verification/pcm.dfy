/**
  Interleaving and quantisation of decoded audio into 16-bit PCM.

  The decoder hands back one plane of samples per channel. Each sample is
  clamped to [-1, 1], scaled by 0x8000 when negative and by 0x7FFF
  otherwise, and stored into an `Int16Array`, whose store truncates toward
  zero. The samples of one frame are stored together, channel by channel,
  so the sample of frame i on channel c lands at i * numberOfChannels + c.
*/
module Pcm {
  import opened ByteView

  function Min(a: real, b: real): real { if a <= b then a else b }
  function Max(a: real, b: real): real { if a >= b then a else b }

  /** `Math.max(-1, Math.min(1, sample))`. */
  function Clamp(sample: real): (s: real)
    ensures -1.0 <= s <= 1.0
    ensures -1.0 <= sample <= 1.0 ==> s == sample
    ensures 1.0 < sample ==> s == 1.0
    ensures sample < -1.0 ==> s == -1.0
  {
    Max(-1.0, Min(1.0, sample))
  }

  /** The asymmetric scaling: 0x8000 below zero, 0x7FFF from zero up. It
      keeps the sign and maps [-1, 1] onto [-32768, 32767]. */
  function Scale(s: real): (r: real)
    ensures r < 0.0 <==> s < 0.0
    ensures r == 0.0 <==> s == 0.0
    ensures -1.0 <= s <= 1.0 ==> -32768.0 <= r <= 32767.0
  {
    if s < 0.0 then s * 0x8000 as real else s * 0x7FFF as real
  }

  /** The value one `data[k] = s < 0 ? s * 0x8000 : s * 0x7FFF` store leaves
      in the `Int16Array` for a decoded sample. */
  function Quantize(sample: real): (q: Int16)
    ensures -1.0 <= sample < 0.0 ==> (q as real) - 1.0 < sample * 32768.0 <= q as real
    ensures 0.0 <= sample <= 1.0 ==> (q as real) <= sample * 32767.0 < (q as real) + 1.0
  {
    ToInt16(Scale(Clamp(sample)))
  }

  /** After clamping, the scaled value truncates into the int16 range, so
      the wrap-around of the `Int16Array` store never takes effect. */
  lemma QuantizeNeverWraps(sample: real)
    ensures -0x8000 <= TruncateTowardZero(Scale(Clamp(sample))) < 0x8000
    ensures Quantize(sample) == TruncateTowardZero(Scale(Clamp(sample)))
  {
  }

  /** Full scale maps to the ends of the int16 range, silence to zero. */
  lemma QuantizeBoundaries()
    ensures Quantize(1.0) == 32767
    ensures Quantize(-1.0) == -32768
    ensures Quantize(0.0) == 0
  {
  }

  /** Samples beyond full scale quantise exactly as full scale does. */
  lemma QuantizeSaturates(sample: real)
    ensures 1.0 <= sample ==> Quantize(sample) == Quantize(1.0) == 32767
    ensures sample <= -1.0 ==> Quantize(sample) == Quantize(-1.0) == -32768
  {
  }

  /** Quantisation preserves the order of samples. */
  lemma QuantizeMonotone(s: real, t: real)
    requires s <= t
    ensures Quantize(s) <= Quantize(t)
  {
  }

  /** Exactly the samples strictly between -1/32768 and 1/32767 quantise to
      zero: truncation toward zero swallows less than one step on each side. */
  lemma QuantizeZero(sample: real)
    ensures Quantize(sample) == 0 <==> -1.0 / 32768.0 < sample < 1.0 / 32767.0
    ensures Quantize(sample) < 0 <==> sample <= -1.0 / 32768.0
  {
  }

  /** The level a 16-bit value stands for under the same asymmetric scale. */
  function Dequantize(q: Int16): (s: real)
    ensures -1.0 <= s <= 1.0
  {
    if q < 0 then q as real / 32768.0 else q as real / 32767.0
  }

  /** Every int16 value is the quantisation of its own level: quantisation
      reaches the whole int16 range and inverts `Dequantize`. */
  lemma QuantizeDequantize(q: Int16)
    ensures Quantize(Dequantize(q)) == q
  {
  }

  /** Quantising and reading back is off by less than one step of the
      scale used on that side of zero. */
  lemma DequantizeQuantize(sample: real)
    requires -1.0 <= sample <= 1.0
    ensures sample < 0.0 ==> sample <= Dequantize(Quantize(sample)) < sample + 1.0 / 32768.0
    ensures 0.0 <= sample ==> sample - 1.0 / 32767.0 < Dequantize(Quantize(sample)) <= sample
  {
  }

  /** What the platform decoder hands back: the sample rate, the channel
      count, the frame count and one plane of samples per channel. */
  datatype AudioBuffer = AudioBuffer(sampleRate: int, numberOfChannels: nat, length: nat,
                                     channelData: seq<seq<real>>)
  {
    /** One plane per channel, each `length` samples long. */
    predicate Valid()
    {
      && |channelData| == numberOfChannels
      && forall c :: 0 <= c < |channelData| ==> |channelData[c]| == length
    }
  }

  /** The quantised samples of frame `i`, channel by channel. */
  function Frame(audio: AudioBuffer, i: nat): (f: seq<Int16>)
    requires audio.Valid() && i < audio.length
    ensures |f| == audio.numberOfChannels
  {
    seq(audio.numberOfChannels, c requires 0 <= c < audio.numberOfChannels =>
      Quantize(audio.channelData[c][i]))
  }

  /** The interleaved buffer of the first `frames` frames. */
  function Interleaved(audio: AudioBuffer, frames: nat): seq<Int16>
    requires audio.Valid() && frames <= audio.length
  {
    if frames == 0 then [] else Interleaved(audio, frames - 1) + Frame(audio, frames - 1)
  }

  /** The first `frames` frames hold `frames * numberOfChannels` samples. */
  lemma {:induction false} InterleavedLength(audio: AudioBuffer, frames: nat)
    requires audio.Valid() && frames <= audio.length
    ensures |Interleaved(audio, frames)| == frames * audio.numberOfChannels
  {
    if frames > 0 {
      InterleavedLength(audio, frames - 1);
      FrameEnd(frames - 1, frames, audio.numberOfChannels);
    }
  }

  /** The sample of frame `i` on channel `c` sits at `i * n + c`. */
  lemma {:induction false} InterleavedAt(audio: AudioBuffer, frames: nat, i: nat, c: nat)
    requires audio.Valid() && frames <= audio.length
    requires i < frames && c < audio.numberOfChannels
    ensures i * audio.numberOfChannels + c < |Interleaved(audio, frames)|
    ensures Interleaved(audio, frames)[i * audio.numberOfChannels + c]
            == Quantize(audio.channelData[c][i])
  {
    var n := audio.numberOfChannels;
    IndexBound(i, c, frames, n);
    InterleavedLength(audio, frames);
    if i < frames - 1 {
      InterleavedAt(audio, frames - 1, i, c);
    } else {
      InterleavedLength(audio, frames - 1);
    }
  }

  /** Conversely, every element of the buffer is the quantised sample of
      frame k / n on channel k % n: the buffer holds nothing else. */
  lemma {:induction false} InterleavedIndex(audio: AudioBuffer, frames: nat, k: nat)
    requires audio.Valid() && frames <= audio.length
    requires k < |Interleaved(audio, frames)|
    ensures audio.numberOfChannels > 0
    ensures k / audio.numberOfChannels < frames
    ensures Interleaved(audio, frames)[k]
            == Quantize(audio.channelData[k % audio.numberOfChannels][k / audio.numberOfChannels])
  {
    var n := audio.numberOfChannels;
    assert k < frames * n by { InterleavedLength(audio, frames); }
    DivBound(k, frames, n);
    InterleavedAt(audio, frames, k / n, k % n);
  }

  lemma DivBound(k: nat, frames: nat, n: nat)
    requires k < frames * n
    ensures n > 0 && k / n < frames && (k / n) * n + k % n == k && k % n < n
  {
    assert n > 0;
    assert (k / n) * n <= k;
    MulCancel(k / n, frames, n);
  }

  lemma MulCancel(a: int, b: int, n: int)
    requires n > 0 && a * n < b * n
    ensures a < b
  {
  }

  lemma IndexBound(i: nat, c: nat, frames: nat, n: nat)
    requires i < frames && c < n
    ensures i * n + c < frames * n
  {
    assert (i + 1) * n <= frames * n;
  }

  lemma FrameEnd(i: nat, frames: nat, n: nat)
    requires i < frames
    ensures i * n + n == (i + 1) * n <= frames * n
  {
  }

  /** Any later prefix of the buffer has room for at least one more frame. */
  lemma {:induction false} InterleavedRoom(audio: AudioBuffer, i: nat, frames: nat)
    requires audio.Valid() && i < frames <= audio.length
    ensures |Interleaved(audio, i)| + audio.numberOfChannels <= |Interleaved(audio, frames)|
  {
    if i < frames - 1 {
      InterleavedRoom(audio, i, frames - 1);
    }
  }

  /** The interleave loop: a buffer of `length * numberOfChannels` samples,
      filled frame by frame. */
  method Interleave(audio: AudioBuffer) returns (data: array<Int16>)
    requires audio.Valid()
    ensures fresh(data)
    ensures data.Length == audio.length * audio.numberOfChannels
    ensures data[..] == Interleaved(audio, audio.length)
  {
    var n := audio.numberOfChannels;
    data := new Int16[audio.length * n](_ => 0);
    assert data.Length == |Interleaved(audio, audio.length)| by {
      InterleavedLength(audio, audio.length);
    }
    var base: nat := 0;  // i * n, the index of frame i's first sample
    for i := 0 to audio.length
      invariant base <= data.Length
      invariant data[..base] == Interleaved(audio, i)
    {
      InterleavedRoom(audio, i, audio.length);
      InterleaveFrame(audio, i, data, base);
      base := base + n;
    }
  }

  /** One step of the outer loop for frame `i`: with the frames before it
      in place from 0 on, the inner loop puts the frame right after them, so
      that the first i + 1 frames are in place; nothing after them changes. */
  method InterleaveFrame(audio: AudioBuffer, i: nat, data: array<Int16>, base: nat)
    requires audio.Valid() && i < audio.length
    requires base + audio.numberOfChannels <= data.Length
    requires data[..base] == Interleaved(audio, i)
    modifies data
    ensures data[..base + audio.numberOfChannels] == Interleaved(audio, i + 1)
    ensures data[base + audio.numberOfChannels..] == old(data[base + audio.numberOfChannels..])
  {
    WriteFrame(audio, i, data, base);
    assert Interleaved(audio, i + 1) == Interleaved(audio, i) + Frame(audio, i);
  }

  /** The inner loop: frame `i`'s quantised samples, channel by channel,
      from `base` on; every other element is unchanged. */
  method WriteFrame(audio: AudioBuffer, i: nat, data: array<Int16>, base: nat)
    requires audio.Valid() && i < audio.length
    requires base + audio.numberOfChannels <= data.Length
    modifies data
    ensures data[..] == old(data[..base]) + Frame(audio, i) + old(data[base + audio.numberOfChannels..])
  {
    var n := audio.numberOfChannels;
    for channel := 0 to n
      invariant data[..base] == old(data[..base])
      invariant data[base + n..] == old(data[base + n..])
      invariant data[base .. base + channel] == Frame(audio, i)[..channel]
    {
      var sample := audio.channelData[channel][i];
      data[base + channel] := Quantize(sample);
      assert Frame(audio, i)[..channel + 1] == Frame(audio, i)[..channel] + [Quantize(sample)];
    }
    assert data[..] == data[..base] + data[base .. base + n] + data[base + n..];
  }
}
