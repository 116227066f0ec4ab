/**
  The audio conversion after decoding: interleave and quantise the decoded
  planes, write the header for the resulting byte length, and put header
  and samples into one `Blob` of media type "audio/wav".
*/
module AudioToWav {
  import opened ByteView
  import opened WavHeader
  import opened Pcm

  /** A `Blob`: its bytes and its declared media type. */
  datatype Blob = Blob(bytes: seq<Byte>, mediaType: string)

  const WavMediaType: string := "audio/wav"

  /** The bytes an `Int16Array` contributes to a `Blob`: each element as the
      two little-endian bytes of its two's-complement form. */
  function SampleBytes(data: seq<Int16>): (bs: seq<Byte>)
    ensures |bs| == 2 * |data|
  {
    if data == [] then [] else Uint16LE(data[0]) + SampleBytes(data[1..])
  }

  /** Two little-endian bytes read as a two's-complement 16-bit integer. */
  function DecodeInt16LE(bs: seq<Byte>): (v: Int16)
    requires |bs| == 2
  {
    var u := DecodeUint16LE(bs);
    if u < 0x8000 then u else u - Two16
  }

  /** Sample k of the buffer occupies bytes 2k and 2k + 1 and reads back
      as itself. */
  lemma {:induction false} SampleBytesAt(data: seq<Int16>, k: nat)
    requires k < |data|
    ensures SampleBytes(data)[2 * k .. 2 * k + 2] == Uint16LE(data[k])
    ensures DecodeInt16LE(SampleBytes(data)[2 * k .. 2 * k + 2]) == data[k]
  {
    if k == 0 {
      assert SampleBytes(data)[0..2] == Uint16LE(data[0]);
    } else {
      SampleBytesAt(data[1..], k - 1);
      var head, rest := Uint16LE(data[0]), SampleBytes(data[1..]);
      assert SampleBytes(data) == head + rest;
      assert |head| + 2 * (k - 1) == 2 * k;
      SliceAfter(head, rest, 2 * (k - 1), 2 * (k - 1) + 2);
    }
    Uint16RoundTrip(data[k]);
  }

  /** The number of data bytes for a decoded buffer: two per sample. */
  function DataLength(audio: AudioBuffer): nat
  {
    2 * (audio.length * audio.numberOfChannels)
  }

  /** The WAV file for a decoded buffer: header, then the interleaved samples. */
  function WavBytes(audio: AudioBuffer): (bs: seq<Byte>)
    requires audio.Valid()
    ensures |bs| == HeaderSize + DataLength(audio)
  {
    InterleavedLength(audio, audio.length);
    HeaderBytes(audio.sampleRate, audio.numberOfChannels, DataLength(audio))
    + SampleBytes(Interleaved(audio, audio.length))
  }

  /** `convertAudioToWav` from the decoded buffer on: interleave and
      quantise, write the header for the data's byte length, and wrap
      header and data in an "audio/wav" `Blob`. */
  method ConvertAudioToWav(audio: AudioBuffer) returns (blob: Blob)
    requires audio.Valid()
    ensures blob.mediaType == WavMediaType
    ensures |blob.bytes| == HeaderSize + DataLength(audio)
    ensures blob.bytes[..HeaderSize]
            == HeaderBytes(audio.sampleRate, audio.numberOfChannels, DataLength(audio))
    ensures blob.bytes[HeaderSize..] == SampleBytes(Interleaved(audio, audio.length))
    ensures blob.bytes == WavBytes(audio)
  {
    var data := Interleave(audio);
    var byteLength := 2 * data.Length;
    var header := WriteWavHeader(audio.sampleRate, audio.numberOfChannels, byteLength);
    blob := Blob(header[..] + SampleBytes(data[..]), WavMediaType);
  }

  /** What a reader of the file finds for frame `i`, channel `c` of a file
      with `n` channels: the little-endian int16 at 44 + 2 * (i * n + c),
      if the file is long enough. */
  function SampleAt(file: seq<Byte>, n: nat, i: nat, c: nat): Option<Int16>
  {
    var at := HeaderSize + 2 * (i * n + c);
    if at + 2 <= |file| then Some(DecodeInt16LE(file[at .. at + 2])) else None
  }

  /** The sample of frame i on channel c is the two bytes at
      44 + 2 * (i * numberOfChannels + c), read as a little-endian int16. */
  lemma WavSampleAt(audio: AudioBuffer, i: nat, c: nat)
    requires audio.Valid() && i < audio.length && c < audio.numberOfChannels
    ensures SampleAt(WavBytes(audio), audio.numberOfChannels, i, c)
            == Some(Quantize(audio.channelData[c][i]))
  {
    var n := audio.numberOfChannels;
    var data := Interleaved(audio, audio.length);
    var k := i * n + c;
    InterleavedAt(audio, audio.length, i, c);
    SampleBytesAt(data, k);
    var h := HeaderBytes(audio.sampleRate, n, DataLength(audio));
    assert WavBytes(audio) == h + SampleBytes(data);
    assert 2 * k + 2 <= |SampleBytes(data)|;
    SliceAfter(h, SampleBytes(data), 2 * k, 2 * k + 2);
  }

  /** A slice of the part after `a` in `a + b`. */
  lemma SliceAfter(a: seq<Byte>, b: seq<Byte>, lo: nat, hi: nat)
    requires lo <= hi <= |b|
    ensures (a + b)[|a| + lo .. |a| + hi] == b[lo..hi]
  {
  }

  /** The file's header reads back the decoded buffer's sample rate and
      channel count and the data length, whenever they fit their fields. */
  lemma WavHeaderRoundTrip(audio: AudioBuffer)
    requires audio.Valid()
    requires InRange(audio.sampleRate, audio.numberOfChannels, DataLength(audio))
    ensures ParseWavHeader(WavBytes(audio)[..HeaderSize])
            == Some(WavFormat(audio.sampleRate, audio.numberOfChannels, DataLength(audio)))
  {
    var h := HeaderBytes(audio.sampleRate, audio.numberOfChannels, DataLength(audio));
    assert WavBytes(audio)[..HeaderSize] == h;
    ParseHeaderRoundTrip(audio.sampleRate, audio.numberOfChannels, DataLength(audio));
  }

  /** A buffer without frames gives a bare 44-byte header whose data chunk
      is empty. */
  lemma EmptyAudio(audio: AudioBuffer)
    requires audio.Valid() && audio.length == 0
    ensures |WavBytes(audio)| == HeaderSize
    ensures DecodeUint32LE(WavBytes(audio)[40..44]) == 0
    ensures DecodeUint32LE(WavBytes(audio)[4..8]) == 36
  {
    assert WavBytes(audio) == HeaderBytes(audio.sampleRate, audio.numberOfChannels, 0);
    HeaderLengths(audio.sampleRate, audio.numberOfChannels, 0);
  }

  /** Two stereo frames at 44100 Hz: silence and full scale on the left,
      negative full scale and silence on the right. */
  const Stereo: AudioBuffer := AudioBuffer(44100, 2, 2, [[0.0, 1.0], [-1.0, 0.0]])

  /** The stereo frames interleave left, right, left, right. */
  lemma StereoInterleaved()
    ensures Stereo.Valid()
    ensures Interleaved(Stereo, 2) == [0, -32768, 32767, 0]
  {
    QuantizeBoundaries();
    assert Frame(Stereo, 0) == [0, -32768];
    assert Frame(Stereo, 1) == [32767, 0];
  }

  /** The stereo file is 52 bytes long; its header gives chunk size 44,
      byte rate 176400, block align 4 and data size 8. */
  lemma StereoExample()
    ensures Stereo.Valid()
    ensures |WavBytes(Stereo)| == 52
    ensures DecodeUint32LE(WavBytes(Stereo)[4..8]) == 44
    ensures DecodeUint32LE(WavBytes(Stereo)[28..32]) == 176400
    ensures DecodeUint16LE(WavBytes(Stereo)[32..34]) == 4
    ensures DecodeUint32LE(WavBytes(Stereo)[40..44]) == 8
  {
    StereoInterleaved();
    var h := HeaderBytes(44100, 2, 8);
    var file := WavBytes(Stereo);
    assert file == h + SampleBytes(Interleaved(Stereo, 2));
    HeaderLengths(44100, 2, 8);
    HeaderFormat(44100, 2, 8);
    assert file[4..8] == h[4..8];
    assert file[28..32] == h[28..32];
    assert file[32..34] == h[32..34];
    assert file[40..44] == h[40..44];
  }
}
