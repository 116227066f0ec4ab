/**
  The byte-level primitives the audio encoder writes through: an
  `ArrayBuffer` seen through a `DataView`, with the ECMAScript number-to-integer
  conversions (`ToUint16`, `ToUint32`, `ToInt16`) made explicit, and the
  UTF-16 code units that `String.prototype.charCodeAt` returns.
*/
module ByteView {

  /** One byte of an `ArrayBuffer`. */
  type Byte = b: int | 0 <= b < 0x100

  /** One element of an `Int16Array`. */
  type Int16 = x: int | -0x8000 <= x < 0x8000

  /** A UTF-16 code unit, the value `charCodeAt` returns. */
  type CodeUnit = c: int | 0 <= c < 0x1_0000

  /** A JavaScript string: a sequence of UTF-16 code units. */
  type JsString = seq<CodeUnit>

  const Two16: int := 0x1_0000
  const Two32: int := 0x1_0000_0000

  /** The code units of an ASCII literal. */
  function Ascii(s: string): (r: JsString)
    requires forall i :: 0 <= i < |s| ==> s[i] as int < 0x80
    ensures |r| == |s|
    ensures forall i :: 0 <= i < |s| ==> r[i] == s[i] as int
  {
    seq(|s|, i requires 0 <= i < |s| => s[i] as int)
  }

  /** ECMAScript ToUint16 of an integral Number: reduction modulo 2^16. */
  function ToUint16(v: int): (r: nat)
    ensures r < Two16
    ensures 0 <= v < Two16 ==> r == v
    ensures (v - r) % Two16 == 0
  {
    v % Two16
  }

  /** ECMAScript ToUint32 of an integral Number: reduction modulo 2^32. */
  function ToUint32(v: int): (r: nat)
    ensures r < Two32
    ensures 0 <= v < Two32 ==> r == v
    ensures (v - r) % Two32 == 0
  {
    v % Two32
  }

  /** ECMAScript truncation of a finite Number toward zero (the first step of ToInt16). */
  function TruncateTowardZero(x: real): (n: int)
    ensures 0.0 <= x ==> n as real <= x < n as real + 1.0
    ensures x < 0.0 ==> n as real - 1.0 < x <= n as real
  {
    if 0.0 <= x then x.Floor else -((-x).Floor)
  }

  /** ECMAScript ToInt16, the conversion an `Int16Array` element store applies:
      truncate toward zero, then wrap modulo 2^16 into [-2^15, 2^15). */
  function ToInt16(x: real): (r: Int16)
    ensures (TruncateTowardZero(x) - r) % Two16 == 0
    ensures -0x8000 <= TruncateTowardZero(x) < 0x8000 ==> r == TruncateTowardZero(x)
  {
    (TruncateTowardZero(x) + 0x8000) % Two16 - 0x8000
  }

  /** The bytes `setUint16(offset, v, true)` stores, least significant first. */
  function Uint16LE(v: int): (bs: seq<Byte>)
    ensures |bs| == 2
  {
    var u := ToUint16(v);
    [u % 0x100, u / 0x100]
  }

  /** The bytes `setUint32(offset, v, true)` stores, least significant first. */
  function Uint32LE(v: int): (bs: seq<Byte>)
    ensures |bs| == 4
  {
    var u := ToUint32(v);
    [u % 0x100, u / 0x100 % 0x100, u / 0x1_0000 % 0x100, u / 0x100_0000]
  }

  /** `getUint16(offset, true)`: the value of two little-endian bytes. */
  function DecodeUint16LE(bs: seq<Byte>): (v: nat)
    requires |bs| == 2
    ensures v < Two16
  {
    bs[0] as int + 0x100 * bs[1] as int
  }

  /** `getUint32(offset, true)`: the value of four little-endian bytes. */
  function DecodeUint32LE(bs: seq<Byte>): (v: nat)
    requires |bs| == 4
    ensures v < Two32
  {
    bs[0] as int + 0x100 * (bs[1] as int + 0x100 * (bs[2] as int + 0x100 * bs[3] as int))
  }

  /** Reading back a 16-bit store yields the stored value modulo 2^16. */
  lemma Uint16RoundTrip(v: int)
    ensures DecodeUint16LE(Uint16LE(v)) == ToUint16(v)
    ensures 0 <= v < Two16 ==> DecodeUint16LE(Uint16LE(v)) == v
  {
  }

  /** Reading back a 32-bit store yields the stored value modulo 2^32. */
  lemma Uint32RoundTrip(v: int)
    ensures DecodeUint32LE(Uint32LE(v)) == ToUint32(v)
    ensures 0 <= v < Two32 ==> DecodeUint32LE(Uint32LE(v)) == v
  {
    var u := ToUint32(v);
    var hi := u / 0x1_0000;
    assert hi == hi % 0x100 + 0x100 * (u / 0x100_0000) by { DivDiv(u / 0x100); DivDiv(u); }
    assert u / 0x100 == u / 0x100 % 0x100 + 0x100 * hi by { DivDiv(u); }
  }

  /** Two little-endian bytes are exactly the store of their value. */
  lemma Uint16Canonical(bs: seq<Byte>)
    requires |bs| == 2
    ensures Uint16LE(DecodeUint16LE(bs)) == bs
  {
  }

  /** Four little-endian bytes are exactly the store of their value. */
  lemma Uint32Canonical(bs: seq<Byte>)
    requires |bs| == 4
    ensures Uint32LE(DecodeUint32LE(bs)) == bs
  {
    var hi := bs[2] as int + 0x100 * bs[3] as int;
    var mid := bs[1] as int + 0x100 * hi;
    var v := DecodeUint32LE(bs);
    assert v == bs[0] as int + 0x100 * mid;
    DigitSplit(bs[0], mid);
    DigitSplit(bs[1], hi);
    DigitSplit(bs[2], bs[3]);
    assert v / 0x1_0000 == mid / 0x100 by { DivDiv(v); }
    assert v / 0x100_0000 == hi / 0x100 by { DivDiv(v / 0x100); DivDiv(v); }
  }

  /** Splitting off the lowest base-256 digit. */
  lemma DigitSplit(low: Byte, high: int)
    ensures (low + 0x100 * high) % 0x100 == low
    ensures (low + 0x100 * high) / 0x100 == high
  {
  }

  /** Dividing by 2^16 is dividing by 2^8 twice. */
  lemma DivDiv(v: int)
    requires v >= 0
    ensures v / 0x1_0000 == v / 0x100 / 0x100
  {
  }

  /** `DataView.setUint8`: stores `v` modulo 2^8 at `offset`, nothing else changes. */
  method SetUint8(view: array<Byte>, offset: nat, v: int)
    requires offset < view.Length
    modifies view
    ensures view[offset] == v % 0x100
    ensures forall k :: 0 <= k < view.Length && k != offset ==> view[k] == old(view[k])
  {
    view[offset] := v % 0x100;
  }

  /** `DataView.setUint16(offset, v, true)`: two bytes at `offset`, nothing else changes. */
  method SetUint16(view: array<Byte>, offset: nat, v: int)
    requires offset + 2 <= view.Length
    modifies view
    ensures view[offset..offset + 2] == Uint16LE(v)
    ensures view[..offset + 2] == old(view[..offset]) + Uint16LE(v)
    ensures forall k :: 0 <= k < view.Length && !(offset <= k < offset + 2) ==> view[k] == old(view[k])
  {
    var bs := Uint16LE(v);
    view[offset] := bs[0];
    view[offset + 1] := bs[1];
  }

  /** `DataView.setUint32(offset, v, true)`: four bytes at `offset`, nothing else changes. */
  method SetUint32(view: array<Byte>, offset: nat, v: int)
    requires offset + 4 <= view.Length
    modifies view
    ensures view[offset..offset + 4] == Uint32LE(v)
    ensures view[..offset + 4] == old(view[..offset]) + Uint32LE(v)
    ensures forall k :: 0 <= k < view.Length && !(offset <= k < offset + 4) ==> view[k] == old(view[k])
  {
    var bs := Uint32LE(v);
    view[offset] := bs[0];
    view[offset + 1] := bs[1];
    view[offset + 2] := bs[2];
    view[offset + 3] := bs[3];
  }
}
