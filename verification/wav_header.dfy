/**
  The 44-byte RIFF/WAVE header of a canonical 16-bit PCM file: a "RIFF" chunk
  of form "WAVE" holding a 16-byte "fmt " chunk with format tag 1 (PCM),
  followed by the header of the "data" chunk.

  `HeaderBytes` is the layout as a value; `WriteWavHeader` fills a fresh
  buffer field by field through the `DataView` stores and is proved to
  produce exactly that layout. `ParseWavHeader` reads a header back and is
  proved to invert `HeaderBytes` whenever the fields fit their widths.
*/
module WavHeader {
  import opened ByteView

  const HeaderSize: nat := 44

  /** The bytes `writeString` leaves behind: each code unit modulo 2^8. */
  function Low8(s: JsString): (bs: seq<Byte>)
    ensures |bs| == |s|
  {
    seq(|s|, i requires 0 <= i < |s| => s[i] % 0x100)
  }

  /** The four-character chunk identifiers the header carries. */
  const Riff: JsString := Ascii("RIFF")
  const Wave: JsString := Ascii("WAVE")
  const Fmt: JsString := Ascii("fmt ")
  const Data: JsString := Ascii("data")

  /** The header for the given sample rate, channel count and data length
      in bytes. Numeric fields are stored little-endian and wrap to their
      width, as the `DataView` stores do. */
  function HeaderBytes(sampleRate: int, numChannels: int, dataLength: int): (h: seq<Byte>)
    ensures |h| == HeaderSize
  {
    Low8(Riff) + Uint32LE(36 + dataLength) + Low8(Wave) + Low8(Fmt)
    + Uint32LE(16) + Uint16LE(1) + Uint16LE(numChannels) + Uint32LE(sampleRate)
    + Uint32LE(sampleRate * numChannels * 2) + Uint16LE(numChannels * 2) + Uint16LE(16)
    + Low8(Data) + Uint32LE(dataLength)
  }

  /** `writeString`: stores the low byte of each code unit of `s` from
      `offset` on, one `setUint8` at a time; no other byte changes. */
  method WriteString(view: array<Byte>, offset: nat, s: JsString)
    requires offset + |s| <= view.Length
    modifies view
    ensures view[offset..offset + |s|] == Low8(s)
    ensures view[..offset + |s|] == old(view[..offset]) + Low8(s)
    ensures forall k :: 0 <= k < view.Length && !(offset <= k < offset + |s|) ==> view[k] == old(view[k])
  {
    for i := 0 to |s|
      invariant forall k :: offset <= k < offset + i ==> view[k] == s[k - offset] % 0x100
      invariant forall k :: 0 <= k < view.Length && !(offset <= k < offset + i) ==> view[k] == old(view[k])
    {
      SetUint8(view, offset + i, s[i]);
    }
  }

  /** `writeWavHeader`: a zero-filled 44-byte buffer written field by field. */
  method WriteWavHeader(sampleRate: int, numChannels: int, dataLength: int) returns (buffer: array<Byte>)
    ensures fresh(buffer)
    ensures buffer[..] == HeaderBytes(sampleRate, numChannels, dataLength)
  {
    buffer := new Byte[HeaderSize](_ => 0);
    // Each store extends the prefix already written by one field.
    ghost var written: seq<Byte> := [];
    assert buffer[..0] == written;
    WriteString(buffer, 0, Riff);
    written := written + Low8(Riff);
    assert buffer[..4] == written;
    SetUint32(buffer, 4, 36 + dataLength);
    written := written + Uint32LE(36 + dataLength);
    assert buffer[..8] == written;
    WriteString(buffer, 8, Wave);
    written := written + Low8(Wave);
    assert buffer[..12] == written;
    WriteString(buffer, 12, Fmt);
    written := written + Low8(Fmt);
    assert buffer[..16] == written;
    SetUint32(buffer, 16, 16);
    written := written + Uint32LE(16);
    assert buffer[..20] == written;
    SetUint16(buffer, 20, 1);
    written := written + Uint16LE(1);
    assert buffer[..22] == written;
    SetUint16(buffer, 22, numChannels);
    written := written + Uint16LE(numChannels);
    assert buffer[..24] == written;
    SetUint32(buffer, 24, sampleRate);
    written := written + Uint32LE(sampleRate);
    assert buffer[..28] == written;
    SetUint32(buffer, 28, sampleRate * numChannels * 2);
    written := written + Uint32LE(sampleRate * numChannels * 2);
    assert buffer[..32] == written;
    SetUint16(buffer, 32, numChannels * 2);
    written := written + Uint16LE(numChannels * 2);
    assert buffer[..34] == written;
    SetUint16(buffer, 34, 16);
    written := written + Uint16LE(16);
    assert buffer[..36] == written;
    WriteString(buffer, 36, Data);
    written := written + Low8(Data);
    assert buffer[..40] == written;
    SetUint32(buffer, 40, dataLength);
    written := written + Uint32LE(dataLength);
    assert buffer[..HeaderSize] == written;
    assert buffer[..] == buffer[..HeaderSize];
  }

  /** The chunk identifiers sit at their fixed offsets as ASCII, and the
      constant fields hold their constants: fmt chunk size 16, format tag 1
      (PCM), 16 bits per sample. */
  lemma HeaderConstants(sampleRate: int, numChannels: int, dataLength: int)
    ensures var h := HeaderBytes(sampleRate, numChannels, dataLength);
      && h[0..4] == Ascii("RIFF") && h[8..12] == Ascii("WAVE")
      && h[12..16] == Ascii("fmt ") && h[36..40] == Ascii("data")
      && DecodeUint32LE(h[16..20]) == 16
      && DecodeUint16LE(h[20..22]) == 1
      && DecodeUint16LE(h[34..36]) == 16
  {
    HeaderSlices(sampleRate, numChannels, dataLength);
    Low8OfByteString(Riff);
    Low8OfByteString(Wave);
    Low8OfByteString(Fmt);
    Low8OfByteString(Data);
    Uint32RoundTrip(16);
    Uint16RoundTrip(1);
    Uint16RoundTrip(16);
  }

  /** The RIFF chunk size at 4..8 reads back as 36 + dataLength and the data
      chunk size at 40..44 as dataLength, both modulo 2^32; exactly so when
      they fit in 32 bits. */
  lemma HeaderLengths(sampleRate: int, numChannels: int, dataLength: int)
    ensures var h := HeaderBytes(sampleRate, numChannels, dataLength);
      && DecodeUint32LE(h[4..8]) == ToUint32(36 + dataLength)
      && DecodeUint32LE(h[40..44]) == ToUint32(dataLength)
    ensures 0 <= dataLength && 36 + dataLength < Two32 ==>
      var h := HeaderBytes(sampleRate, numChannels, dataLength);
      && DecodeUint32LE(h[4..8]) == 36 + dataLength
      && DecodeUint32LE(h[40..44]) == dataLength
  {
    HeaderSlices(sampleRate, numChannels, dataLength);
    Uint32RoundTrip(36 + dataLength);
    Uint32RoundTrip(dataLength);
  }

  /** The channel count at 22..24 and the sample rate at 24..28 read back as
      given (modulo 2^16 and 2^32), the byte rate at 28..32 reads as
      sampleRate * numChannels * 2 and the block align at 32..34 as
      numChannels * 2 (modulo their widths). */
  lemma HeaderFormat(sampleRate: int, numChannels: int, dataLength: int)
    ensures var h := HeaderBytes(sampleRate, numChannels, dataLength);
      && DecodeUint16LE(h[22..24]) == ToUint16(numChannels)
      && DecodeUint32LE(h[24..28]) == ToUint32(sampleRate)
      && DecodeUint32LE(h[28..32]) == ToUint32(sampleRate * numChannels * 2)
      && DecodeUint16LE(h[32..34]) == ToUint16(numChannels * 2)
  {
    HeaderSlices(sampleRate, numChannels, dataLength);
    Uint16RoundTrip(numChannels);
    Uint32RoundTrip(sampleRate);
    Uint32RoundTrip(sampleRate * numChannels * 2);
    Uint16RoundTrip(numChannels * 2);
  }

  datatype Option<T> = None | Some(value: T)

  /** The three parameters a header records. */
  datatype WavFormat = WavFormat(sampleRate: nat, numChannels: nat, dataLength: nat)

  /** Reads a canonical 16-bit PCM header back: checks the chunk
      identifiers, the constant fields and the fields derived from the
      others, and returns the recorded parameters; None for anything else. */
  function ParseWavHeader(h: seq<Byte>): (r: Option<WavFormat>)
    ensures r.Some? ==> |h| == HeaderSize && h[0..4] == Low8(Riff) && h[8..12] == Low8(Wave)
    ensures r.Some? ==> r.value.numChannels < Two16 && r.value.sampleRate < Two32 && r.value.dataLength < Two32
  {
    if |h| != HeaderSize then None
    else if h[0..4] != Low8(Riff) || h[8..12] != Low8(Wave) || h[12..16] != Low8(Fmt) || h[36..40] != Low8(Data) then None
    else
      var numChannels := DecodeUint16LE(h[22..24]);
      var sampleRate := DecodeUint32LE(h[24..28]);
      var dataLength := DecodeUint32LE(h[40..44]);
      if && DecodeUint32LE(h[4..8]) == 36 + dataLength
         && DecodeUint32LE(h[16..20]) == 16
         && DecodeUint16LE(h[20..22]) == 1
         && DecodeUint32LE(h[28..32]) == sampleRate * numChannels * 2
         && DecodeUint16LE(h[32..34]) == numChannels * 2
         && DecodeUint16LE(h[34..36]) == 16
      then Some(WavFormat(sampleRate, numChannels, dataLength))
      else None
  }

  /** Whether the parameters fit the header's fields without wrapping. */
  predicate InRange(sampleRate: int, numChannels: int, dataLength: int)
  {
    && 0 <= sampleRate && 0 <= numChannels && 0 <= dataLength
    && numChannels * 2 < Two16 && sampleRate < Two32
    && sampleRate * numChannels * 2 < Two32
    && 36 + dataLength < Two32
  }

  /** A header written from in-range parameters reads back as exactly those
      parameters. */
  lemma ParseHeaderRoundTrip(sampleRate: int, numChannels: int, dataLength: int)
    requires InRange(sampleRate, numChannels, dataLength)
    ensures ParseWavHeader(HeaderBytes(sampleRate, numChannels, dataLength))
            == Some(WavFormat(sampleRate, numChannels, dataLength))
  {
    var h := HeaderBytes(sampleRate, numChannels, dataLength);
    HeaderConstants(sampleRate, numChannels, dataLength);
    HeaderLengths(sampleRate, numChannels, dataLength);
    HeaderFormat(sampleRate, numChannels, dataLength);
    HeaderSlices(sampleRate, numChannels, dataLength);
    assert DecodeUint16LE(h[22..24]) == numChannels;
    assert DecodeUint32LE(h[24..28]) == sampleRate;
    assert DecodeUint32LE(h[40..44]) == dataLength;
    var byteRate := sampleRate * numChannels * 2;
    ProductNonNegative(sampleRate, numChannels);
    assert DecodeUint32LE(h[28..32]) == byteRate;
    assert DecodeUint16LE(h[32..34]) == numChannels * 2;
  }

  /** Conversely, every header the parser accepts is the one written from
      the parameters it reads, and those parameters are in range: the
      header carries nothing but its three parameters. */
  lemma ParseHeaderExact(h: seq<Byte>)
    requires ParseWavHeader(h).Some?
    ensures var f := ParseWavHeader(h).value;
      && InRange(f.sampleRate, f.numChannels, f.dataLength)
      && h == HeaderBytes(f.sampleRate, f.numChannels, f.dataLength)
  {
    var f := ParseWavHeader(h).value;
    var g := HeaderBytes(f.sampleRate, f.numChannels, f.dataLength);
    HeaderSlices(f.sampleRate, f.numChannels, f.dataLength);
    Uint32Canonical(h[4..8]);
    Uint32Canonical(h[16..20]);
    Uint16Canonical(h[20..22]);
    Uint16Canonical(h[22..24]);
    Uint32Canonical(h[24..28]);
    Uint32Canonical(h[28..32]);
    Uint16Canonical(h[32..34]);
    Uint16Canonical(h[34..36]);
    Uint32Canonical(h[40..44]);
    assert h[..0] == g[..0];
    ExtendPrefix(h, g, 0, 4);
    ExtendPrefix(h, g, 4, 8);
    ExtendPrefix(h, g, 8, 12);
    ExtendPrefix(h, g, 12, 16);
    ExtendPrefix(h, g, 16, 20);
    ExtendPrefix(h, g, 20, 22);
    ExtendPrefix(h, g, 22, 24);
    ExtendPrefix(h, g, 24, 28);
    ExtendPrefix(h, g, 28, 32);
    ExtendPrefix(h, g, 32, 34);
    ExtendPrefix(h, g, 34, 36);
    ExtendPrefix(h, g, 36, 40);
    ExtendPrefix(h, g, 40, 44);
    assert h == h[..44] && g == g[..44];
  }

  lemma ProductNonNegative(a: nat, b: nat)
    ensures 0 <= a * b * 2
  {
  }

  /** Agreement on a prefix and on the next slice is agreement on the longer prefix. */
  lemma ExtendPrefix(h: seq<Byte>, g: seq<Byte>, a: nat, b: nat)
    requires a <= b <= |h| && b <= |g|
    requires h[..a] == g[..a] && h[a..b] == g[a..b]
    ensures h[..b] == g[..b]
  {
    assert h[..b] == h[..a] + h[a..b];
    assert g[..b] == g[..a] + g[a..b];
  }

  /** The header split into its fields. */
  lemma HeaderSlices(sampleRate: int, numChannels: int, dataLength: int)
    ensures var h := HeaderBytes(sampleRate, numChannels, dataLength);
      && h[0..4] == Low8(Riff) && h[4..8] == Uint32LE(36 + dataLength)
      && h[8..12] == Low8(Wave) && h[12..16] == Low8(Fmt)
      && h[16..20] == Uint32LE(16) && h[20..22] == Uint16LE(1)
      && h[22..24] == Uint16LE(numChannels) && h[24..28] == Uint32LE(sampleRate)
      && h[28..32] == Uint32LE(sampleRate * numChannels * 2)
      && h[32..34] == Uint16LE(numChannels * 2) && h[34..36] == Uint16LE(16)
      && h[36..40] == Low8(Data) && h[40..44] == Uint32LE(dataLength)
  {
    var h := HeaderBytes(sampleRate, numChannels, dataLength);
    var p1 := Low8(Riff);
    var p2 := p1 + Uint32LE(36 + dataLength);
    var p3 := p2 + Low8(Wave);
    var p4 := p3 + Low8(Fmt);
    var p5 := p4 + Uint32LE(16);
    var p6 := p5 + Uint16LE(1);
    var p7 := p6 + Uint16LE(numChannels);
    var p8 := p7 + Uint32LE(sampleRate);
    var p9 := p8 + Uint32LE(sampleRate * numChannels * 2);
    var p10 := p9 + Uint16LE(numChannels * 2);
    var p11 := p10 + Uint16LE(16);
    var p12 := p11 + Low8(Data);
    assert h[..44] == p12 + Uint32LE(dataLength);
    // Peel the fields off from the last one back.
    FieldOf(h, p12, Uint32LE(dataLength));
    FieldOf(h, p11, Low8(Data));
    FieldOf(h, p10, Uint16LE(16));
    FieldOf(h, p9, Uint16LE(numChannels * 2));
    FieldOf(h, p8, Uint32LE(sampleRate * numChannels * 2));
    FieldOf(h, p7, Uint32LE(sampleRate));
    FieldOf(h, p6, Uint16LE(numChannels));
    FieldOf(h, p5, Uint16LE(1));
    FieldOf(h, p4, Uint32LE(16));
    FieldOf(h, p3, Low8(Fmt));
    FieldOf(h, p2, Low8(Wave));
    FieldOf(h, p1, Uint32LE(36 + dataLength));
    FieldOf(h, [], p1);
  }

  /** Code units below 2^8 are stored unchanged. */
  lemma Low8OfByteString(s: JsString)
    requires forall i :: 0 <= i < |s| ==> s[i] < 0x100
    ensures Low8(s) == s
  {
  }

  /** A prefix of `h` that reads `pre + f` holds `f` right after `pre`. */
  lemma FieldOf(h: seq<Byte>, pre: seq<Byte>, f: seq<Byte>)
    requires |pre| + |f| <= |h| && h[..|pre| + |f|] == pre + f
    ensures h[..|pre|] == pre && h[|pre|..|pre| + |f|] == f
  {
    assert h[..|pre|] == (pre + f)[..|pre|];
    assert h[|pre|..|pre| + |f|] == (pre + f)[|pre|..];
  }
}
