# Media converter core: PCM-to-WAV encoder and text encoders

A Dafny model of the local logic in `utils/converters.ts`. It has two parts.

The first is the audio encoder that runs once the platform has decoded the
audio into one plane of samples per channel:

- Clamp every sample to [-1, 1].
- Scale a negative sample by 0x8000 and any other sample by 0x7FFF.
- Store the scaled value in an `Int16Array`. The store truncates toward zero
  and wraps modulo 2^16.
- Lay the samples out frame by frame. Frame `i` on channel `c` goes to index
  `i * numberOfChannels + c`.
- Write the 44-byte RIFF/WAVE header for canonical 16-bit PCM through a
  `DataView`. Its numeric fields are little-endian and each wraps to its
  width.
- Put the header in front of the samples in an "audio/wav" `Blob`.

The second is `convertText` for the BINARY, HEX, DUODECIMAL, MORSE and
REVERSE algorithms. It works on the UTF-16 code units of a string.

Modules:

- `ByteView` (byte_view.dfy) holds the byte-level primitives:
  - the ECMAScript conversions `ToUint16`, `ToUint32` and `ToInt16`;
  - the little-endian encodings and their decoders;
  - the `DataView` stores `setUint8`, `setUint16` and `setUint32` as methods
    on an `array<Byte>`.
- `WavHeader` (wav_header.dfy) has:
  - `writeString` as a method proved to store `Low8(s)` at its offset and to
    change nothing else;
  - `writeWavHeader` as a method proved to produce the layout `HeaderBytes`;
  - lemmas giving the value of every field;
  - a header reader, `ParseWavHeader`, proved to invert `HeaderBytes` in both
    directions.
- `Pcm` (pcm.dfy) covers clamping and quantisation. Its interleave loop is a
  method on an `array<Int16>`, proved against the function `Interleaved`.
- `AudioToWav` (audio_to_wav.dfy) assembles the `Blob` and states where each
  sample lands in the file.
- `TextConverters` (text_converters.dfy) has:
  - `ConvertText`;
  - `toString(radix)`, `padStart`, `split` and `join` on code units;
  - the Morse table;
  - reverse;
  - the decoders that give the text back.

## Model

| member | source | states |
|---|---|---|
| ByteView.SetUint8 | utils/converters.ts:134 | `setUint8` stores the value modulo 2^8 at the offset and changes no other byte |
| ByteView.SetUint16 | utils/converters.ts:113-123 | `setUint16(offset, v, true)` stores the two little-endian bytes of `v` modulo 2^16 at offset..offset+2; every other byte is unchanged |
| ByteView.SetUint32 | utils/converters.ts:105-127 | `setUint32(offset, v, true)` stores the four little-endian bytes of `v` modulo 2^32 at offset..offset+4; every other byte is unchanged |
| ByteView.Uint16RoundTrip | utils/converters.ts:113-123 | reading back a 16-bit store gives the value modulo 2^16, and the value itself when it fits |
| ByteView.Uint32RoundTrip | utils/converters.ts:105-127 | reading back a 32-bit store gives the value modulo 2^32, and the value itself when it fits |
| ByteView.Uint16Canonical | utils/converters.ts:113-123 | any two bytes are exactly the 16-bit store of the value they read as |
| ByteView.Uint32Canonical | utils/converters.ts:105-127 | any four bytes are exactly the 32-bit store of the value they read as |
| ByteView.ToInt16 | utils/converters.ts:154 | the `Int16Array` store truncates toward zero and wraps: the result is congruent to the truncation modulo 2^16, and equal to it when it is in the int16 range |
| WavHeader.WriteString | utils/converters.ts:132-136 | byte `offset + i` becomes code unit `i` of the string modulo 2^8, for each unit; no byte outside offset..offset+length changes |
| WavHeader.HeaderBytes | utils/converters.ts:98-130 | the header layout is 44 bytes long; the value of each field is given by `HeaderConstants`, `HeaderLengths` and `HeaderFormat` |
| WavHeader.WriteWavHeader | utils/converters.ts:98-130 | the fresh 44-byte buffer holds exactly the header layout `HeaderBytes`, field by field |
| WavHeader.HeaderConstants | utils/converters.ts:103-125 | "RIFF" at 0..4, "WAVE" at 8..12, "fmt " at 12..16 and "data" at 36..40 as ASCII; the fmt chunk size at 16..20 is 16 and the format tag at 20..22 is 1 (PCM); bits per sample at 34..36 is 16 |
| WavHeader.HeaderLengths | utils/converters.ts:105 | bytes 4..8 read as `36 + dataLength` and bytes 40..44 as `dataLength`, both modulo 2^32, and exactly them when both fit in 32 bits |
| WavHeader.HeaderFormat | utils/converters.ts:115-121 | bytes 22..24 read back `numChannels`, 24..28 `sampleRate`, 28..32 the byte rate `sampleRate * numChannels * 2` and 32..34 the block align `numChannels * 2`, each modulo its width |
| WavHeader.ParseWavHeader | utils/converters.ts:98-130 | a header the reader accepts is 44 bytes long, starts with "RIFF", has "WAVE" at 8..12, and its fields are within their widths |
| WavHeader.ParseHeaderRoundTrip | utils/converters.ts:98-130 | for parameters that fit their fields, reading the written header gives back sample rate, channel count and data length |
| WavHeader.ParseHeaderExact | utils/converters.ts:98-130 | every header the reader accepts is exactly the one written from the parameters it reads, and those parameters are in range: the header carries nothing else |
| Pcm.Clamp | utils/converters.ts:153 | the clamped sample lies in [-1, 1]; samples in range are unchanged, larger ones become 1 and smaller ones -1 |
| Pcm.Scale | utils/converters.ts:154 | scaling keeps the sign of the sample and zero, and maps [-1, 1] into [-32768, 32767] |
| Pcm.Quantize | utils/converters.ts:153-154 | an in-range negative sample quantises to the truncation toward zero of `s * 32768`, and an in-range non-negative one to the truncation of `s * 32767`; samples beyond ±1 are covered by `QuantizeSaturates` |
| Pcm.QuantizeNeverWraps | utils/converters.ts:153-154 | after clamping, the truncated value is in the int16 range, so the wrap-around of the `Int16Array` store never takes effect |
| Pcm.QuantizeBoundaries | utils/converters.ts:153-154 | 1.0 quantises to 32767, -1.0 to -32768 and 0.0 to 0 |
| Pcm.QuantizeSaturates | utils/converters.ts:153-154 | samples at or above 1 quantise as 1 does; samples at or below -1 quantise as -1 does |
| Pcm.QuantizeMonotone | utils/converters.ts:153-154 | quantisation preserves the order of samples |
| Pcm.QuantizeZero | utils/converters.ts:153-154 | a sample quantises to 0 exactly when it is strictly between -1/32768 and 1/32767, and to a negative value exactly when it is at most -1/32768 |
| Pcm.QuantizeDequantize | utils/converters.ts:153-154 | every int16 value is reached: it is the quantisation of the level it stands for |
| Pcm.DequantizeQuantize | utils/converters.ts:153-154 | the level read back differs from an in-range sample by less than one step of the scale used on that side of zero, and always toward zero |
| Pcm.InterleavedLength | utils/converters.ts:148 | the interleaved buffer of `frames` frames holds `frames * numberOfChannels` samples, the length of the `Int16Array` the code allocates |
| Pcm.InterleavedAt | utils/converters.ts:148-156 | the quantised sample of frame `i` on channel `c` sits at index `i * numberOfChannels + c` of the buffer |
| Pcm.InterleavedIndex | utils/converters.ts:148-156 | every element `k` of the buffer is the quantised sample of frame `k / n` on channel `k % n`, so the buffer holds nothing else |
| Pcm.Interleave | utils/converters.ts:148-156 | the loop fills a fresh buffer of `length * numberOfChannels` samples with exactly the interleaved quantised samples |
| Pcm.InterleaveFrame | utils/converters.ts:149-156 | one step of the outer loop: with frames 0..i-1 in place at the front, afterwards frames 0..i are in place and every element after them is unchanged |
| Pcm.WriteFrame | utils/converters.ts:150-155 | the inner loop: the whole new buffer is the old part before `base`, then frame `i`'s quantised samples in channel order, then the old part after the frame |
| AudioToWav.SampleBytesAt | utils/converters.ts:159 | sample `k` of the `Int16Array` occupies bytes `2k` and `2k + 1` of its bytes, little-endian, and reads back as itself |
| AudioToWav.SampleBytes | utils/converters.ts:159 | the sample data contributes two bytes per `Int16Array` element |
| AudioToWav.WavBytes | utils/converters.ts:158-159 | the file is `44 + dataLength` bytes long |
| AudioToWav.ConvertAudioToWav | utils/converters.ts:143-159 | the `Blob` has media type "audio/wav" and is `44 + 2 * length * numberOfChannels` bytes long; it is the header for the data's byte length followed by the interleaved samples, that is `WavBytes(audio)`, the value `WavSampleAt` and `WavHeaderRoundTrip` read |
| AudioToWav.WavSampleAt | utils/converters.ts:148-159 | in the file, the int16 at byte `44 + 2 * (i * numberOfChannels + c)` is the quantised sample of frame `i` on channel `c` |
| AudioToWav.WavHeaderRoundTrip | utils/converters.ts:158 | when the parameters fit their fields, the file's first 44 bytes read back the decoded sample rate, the channel count and a data length of two bytes per sample |
| AudioToWav.EmptyAudio | utils/converters.ts:148-159 | audio without frames gives a bare 44-byte header with data size 0 and RIFF chunk size 36 |
| AudioToWav.StereoInterleaved | utils/converters.ts:148-156 | two stereo frames at full scale and silence interleave as left, right, left, right: 0, -32768, 32767, 0 |
| AudioToWav.StereoExample | utils/converters.ts:98-159 | the stereo file is 52 bytes long, with chunk size 44, byte rate 176400, block align 4 and data size 8 |
| TextConverters.ToRadix | utils/converters.ts:18-23 | `toString(radix)` gives at least one digit, every digit is below the radix, a positive number has no leading zero, and a number below the radix (zero included) is its single digit |
| TextConverters.PadStart | utils/converters.ts:18-20 | `padStart(width, '0')` adds zeros in front until the string is `width` long and keeps the string as its suffix |
| TextConverters.Join | utils/converters.ts:18-33 | `join` of no parts is empty, and the first part is a prefix of the join |
| TextConverters.ParseToRadix | utils/converters.ts:18-23 | reading the digits of `toString(radix)` back in the radix gives the number |
| TextConverters.PaddedTokenRoundTrip | utils/converters.ts:18-20 | a code unit's zero-padded code is at least `width` long, holds only digits of the radix, and reads back as the code unit |
| TextConverters.SplitJoin | utils/converters.ts:18-31 | splitting a `join(' ')` at spaces gives back the parts, provided no part contains a space |
| TextConverters.NumericRoundTrip | utils/converters.ts:18-23 | splitting a numeric encoding at spaces and parsing each piece gives back every code unit of the text, in order |
| TextConverters.Reversed | utils/converters.ts:33 | the reverse has the text's length and unit `k` of it is unit `length - 1 - k` of the text |
| TextConverters.UpperUnit | utils/converters.ts:31 | upper-casing leaves no lower-case ASCII letter; a unit is either kept or is a lower-case ASCII letter moved down by 0x20 |
| TextConverters.Upper | utils/converters.ts:31 | the same for every unit of a string, whose length is kept |
| TextConverters.MorseToken | utils/converters.ts:31 | a token is either made of Morse symbols or is the unit itself, and never contains a space |
| TextConverters.ConvertText | utils/converters.ts:15-37 | the empty text gives the empty output; BINARY, HEX and DUODECIMAL outputs parse back to the text in radix 2, 16 and 12; a non-empty MORSE output splits at spaces into one token per upper-cased unit; REVERSE holds the units in reverse order |
| TextConverters.ReversedTwice | utils/converters.ts:33 | reversing the code units twice gives back the text |
| TextConverters.ConvertNumericTokens | utils/converters.ts:18-20 | BINARY and HEX emit one space-separated token per code unit; each token is at least 8 (binary) or 2 (hex) digits of the radix long and reads back as that code unit |
| TextConverters.MorseTableSymbols | utils/converters.ts:5-13 | every code in the Morse table consists of dots, dashes and '/' |
| TextConverters.ConvertMorseTokens | utils/converters.ts:30-31 | MORSE emits one space-separated token per code unit: the table code of the upper-cased unit when the table has it, and the upper-cased unit itself otherwise |
| TextConverters.ConvertMorseCaseInsensitive | utils/converters.ts:31 | MORSE gives the same output for a text and its upper-cased form |
| TextConverters.ConvertReverseTwice | utils/converters.ts:33 | REVERSE applied twice returns the input |

## Left out

- Browser decoding (utils/converters.ts:139-141) is left out: reading the file and `AudioContext.decodeAudioData`. The model starts from the decoded buffer, an `AudioBuffer` value with its sample rate, channel count, frame count and channel planes.
- NaN, infinities and IEEE-754 rounding are left out. Samples are exact reals. The code does not detect NaN or infinite samples, and the model has no error for them.
- The code does no range check on the header parameters and has no error path for them. The `DataView` stores wrap each field to its width, and the model does the same.
- Non-integral sample rates are not modelled. A `number` sample rate is modelled as an integer; a negative one wraps through `ToUint32` as it does in the code.
- The `RangeError` that a `DataView` raises for an offset past the buffer is not modelled. Every store in `writeWavHeader` is in bounds, and the store methods require it.
- The conversion of an `Int16Array` to `Blob` bytes assumes a little-endian platform. That is the byte order of all mainstream hosts; a big-endian host would swap each sample's two bytes.
- The `Blob` is modelled as its byte sequence and media type only.
- ConvertText: the BASE64 branch (utils/converters.ts:24-29) is excluded by the precondition `algorithm != Base64`. That branch only delegates to the platform's `btoa` and its exception.
- ConvertText: the `default` branch (utils/converters.ts:34-35) is not modelled. No value of the typed `TextAlgorithm` reaches it.
- UpperUnit: `toUpperCase` is modelled on the ASCII letters only. Full Unicode case mapping can change a string's length and lies outside the model.
- `convertImage` (utils/converters.ts:41-93) is not part of this model. It uses FileReader, Image and canvas encoding.
- services/gemini.ts, App.tsx and components/ResultCard.tsx are not part of this model. They hold remote API wrappers and UI glue.
