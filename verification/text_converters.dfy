/**
  The text converters: a string, taken as its UTF-16 code units, becomes
  the space-separated binary, hexadecimal or duodecimal codes of its units,
  its Morse code, or its reverse.

  The numeric encodings and REVERSE are paired with what a reader does to
  get the text back: `Split` undoes `Join`, `ParseRadix` undoes `ToRadix`
  and its zero padding, and `Reverse` undoes itself. MORSE loses case, and
  the units '.', '-' and '/' that pass through collide with codes in the
  table, so it only splits back into one token per upper-cased unit.
*/
module TextConverters {
  import opened ByteView

  datatype TextAlgorithm = Binary | Duodecimal | Morse | Base64 | Hex | Reverse

  const Space: CodeUnit := 0x20
  const ZeroDigit: CodeUnit := 0x30

  // ---------------------------------------------------------------------
  // Radix formatting: Number.prototype.toString(radix) and padStart
  // ---------------------------------------------------------------------

  /** The digit character for `d`: '0'..'9', then 'a'..'z'. */
  function DigitUnit(d: nat): (u: CodeUnit)
    requires d < 36
  {
    if d < 10 then 0x30 + d else 0x61 + (d - 10)
  }

  /** The value of a digit character; 36 for anything that is not one. */
  function DigitValue(u: CodeUnit): (d: nat)
    ensures d <= 36
  {
    if 0x30 <= u <= 0x39 then u - 0x30
    else if 0x61 <= u <= 0x7A then u - 0x61 + 10
    else 36
  }

  /** `n.toString(radix)`: the digits of `n`, most significant first,
      without leading zeros ("0" for zero). */
  function ToRadix(n: nat, radix: nat): (s: JsString)
    requires 2 <= radix <= 36
    ensures |s| >= 1
    ensures forall i :: 0 <= i < |s| ==> DigitValue(s[i]) < radix
    ensures n > 0 ==> DigitValue(s[0]) > 0
    ensures n < radix ==> s == [DigitUnit(n)]
    decreases n
  {
    if n < radix then
      DigitRoundTrip(n);
      [DigitUnit(n)]
    else
      DivMod(n, radix);
      DigitRoundTrip(n % radix);
      ToRadix(n / radix, radix) + [DigitUnit(n % radix)]
  }

  /** `s.padStart(width, '0')`: zeros in front up to `width` units. */
  function PadStart(s: JsString, width: nat): (r: JsString)
    ensures |r| == if |s| < width then width else |s|
    ensures r[|r| - |s|..] == s
    ensures forall i :: 0 <= i < |r| - |s| ==> r[i] == ZeroDigit
  {
    if |s| < width then seq(width - |s|, _ => ZeroDigit) + s else s
  }

  /** The value of a string of digits in the given radix. */
  function ParseRadix(t: JsString, radix: nat): nat
    decreases |t|
  {
    if t == [] then 0
    else ParseRadix(t[..|t| - 1], radix) * radix + DigitValue(t[|t| - 1])
  }

  lemma DigitRoundTrip(d: nat)
    requires d < 36
    ensures DigitValue(DigitUnit(d)) == d
  {
  }

  /** Reading back `toString(radix)` gives the number. */
  lemma {:induction false} ParseToRadix(n: nat, radix: nat)
    requires 2 <= radix <= 36
    ensures ParseRadix(ToRadix(n, radix), radix) == n
    decreases n
  {
    if n < radix {
      SingleDigit(n, radix);
    } else {
      var q, r := n / radix, n % radix;
      assert n == q * radix + r && r < radix && q < n by { DivMod(n, radix); }
      var digits := ToRadix(q, radix);
      assert ToRadix(n, radix) == digits + [DigitUnit(r)];
      assert ParseRadix(digits, radix) == q by { ParseToRadix(q, radix); }
      LastDigit(digits, q, r, radix);
    }
  }

  /** A number below the radix is one digit. */
  lemma SingleDigit(n: nat, radix: nat)
    requires 2 <= radix <= 36 && n < radix
    ensures ParseRadix(ToRadix(n, radix), radix) == n
  {
    var t := ToRadix(n, radix);
    assert t == [DigitUnit(n)];
    assert t[..0] == [];
    DigitRoundTrip(n);
  }

  /** Appending the digit for `r` to the digits of `q`. */
  lemma LastDigit(digits: JsString, q: nat, r: nat, radix: nat)
    requires 2 <= radix <= 36 && r < radix
    requires ParseRadix(digits, radix) == q
    ensures ParseRadix(digits + [DigitUnit(r)], radix) == q * radix + r
  {
    DigitRoundTrip(r);
    ParseAppend(digits, DigitUnit(r), radix);
  }

  lemma DivMod(n: nat, d: nat)
    requires d > 1
    ensures n == (n / d) * d + n % d && n % d < d
    ensures n > 0 ==> n / d < n
  {
    var q := n / d;
    assert n == q * d + n % d;
    AtLeastTwice(q, d);
  }

  lemma AtLeastTwice(q: nat, d: nat)
    requires d > 1
    ensures q * d >= q * 2
  {
    var e := d - 2;
    assert q * d == q * 2 + q * e;
  }

  /** One more digit at the end multiplies by the radix and adds the digit. */
  lemma ParseAppend(t: JsString, u: CodeUnit, radix: nat)
    ensures ParseRadix(t + [u], radix) == ParseRadix(t, radix) * radix + DigitValue(u)
  {
    assert (t + [u])[..|t|] == t;
  }

  /** Leading zeros do not change the value. */
  lemma {:induction false} ParseLeadingZeros(z: nat, t: JsString, radix: nat)
    ensures ParseRadix(seq(z, _ => ZeroDigit) + t, radix) == ParseRadix(t, radix)
    decreases |t| + z
  {
    var zeros := seq(z, _ => ZeroDigit);
    if t == [] {
      assert zeros + t == zeros;
      if z > 0 {
        assert zeros[..z - 1] == seq(z - 1, _ => ZeroDigit) + [];
        ParseLeadingZeros(z - 1, [], radix);
      }
    } else {
      var s := zeros + t;
      assert s[..|s| - 1] == zeros + t[..|t| - 1];
      ParseLeadingZeros(z, t[..|t| - 1], radix);
    }
  }

  /** The padded code of one code unit reads back as that code unit, is at
      least `width` long and holds only digits of the radix. */
  lemma PaddedTokenRoundTrip(u: CodeUnit, radix: nat, width: nat)
    requires 2 <= radix <= 36
    ensures var t := PadStart(ToRadix(u, radix), width);
      && |t| >= width
      && (forall i :: 0 <= i < |t| ==> DigitValue(t[i]) < radix)
      && ParseRadix(t, radix) == u
  {
    var s := ToRadix(u, radix);
    ParseToRadix(u, radix);
    if |s| < width {
      ParseLeadingZeros(width - |s|, s, radix);
    }
  }

  // ---------------------------------------------------------------------
  // split('') / map / join
  // ---------------------------------------------------------------------

  /** `parts.join(sep)`. */
  function Join(parts: seq<JsString>, sep: JsString): (s: JsString)
    ensures |parts| == 0 ==> s == []
    ensures |parts| >= 1 ==> |parts[0]| <= |s| && s[..|parts[0]|] == parts[0]
    decreases |parts|
  {
    if |parts| == 0 then []
    else if |parts| == 1 then parts[0]
    else parts[0] + sep + Join(parts[1..], sep)
  }

  /** `s.split(sep)` for a one-unit separator: the pieces between the
      separators ("" gives one empty piece). */
  function Split(s: JsString, sep: CodeUnit): (parts: seq<JsString>)
    ensures |parts| >= 1
    decreases |s|
  {
    if s == [] then [[]]
    else
      var rest := Split(s[1..], sep);
      if s[0] == sep then [[]] + rest else [[s[0]] + rest[0]] + rest[1..]
  }

  lemma {:induction false} SplitWithout(t: JsString, sep: CodeUnit)
    requires sep !in t
    ensures Split(t, sep) == [t]
    decreases |t|
  {
    if t != [] {
      SplitWithout(t[1..], sep);
      assert [t[0]] + t[1..] == t;
    }
  }

  lemma {:induction false} SplitAt(t: JsString, sep: CodeUnit, rest: JsString)
    requires sep !in t
    ensures Split(t + [sep] + rest, sep) == [t] + Split(rest, sep)
    decreases |t|
  {
    var s := t + [sep] + rest;
    if t == [] {
      assert s[1..] == rest;
    } else {
      assert s[1..] == t[1..] + [sep] + rest;
      SplitAt(t[1..], sep, rest);
      assert [t[0]] + t[1..] == t;
    }
  }

  /** Splitting a join at its separator gives back the parts, provided no
      part contains the separator. */
  lemma {:induction false} SplitJoin(parts: seq<JsString>, sep: CodeUnit)
    requires |parts| >= 1
    requires forall i :: 0 <= i < |parts| ==> sep !in parts[i]
    ensures Split(Join(parts, [sep]), sep) == parts
    decreases |parts|
  {
    if |parts| == 1 {
      SplitWithout(parts[0], sep);
    } else {
      var rest := parts[1..];
      assert forall i :: 0 <= i < |rest| ==> sep !in rest[i] by {
        forall i | 0 <= i < |rest| ensures sep !in rest[i] { assert rest[i] == parts[i + 1]; }
      }
      SplitJoin(rest, sep);
      assert Join(parts, [sep]) == parts[0] + [sep] + Join(rest, [sep]);
      SplitAt(parts[0], sep, Join(rest, [sep]));
      assert [parts[0]] + rest == parts;
    }
  }

  // ---------------------------------------------------------------------
  // The numeric encodings
  // ---------------------------------------------------------------------

  /** One token per code unit: its code in the radix, zero-padded to `width`. */
  function NumericTokens(text: JsString, radix: nat, width: nat): (tokens: seq<JsString>)
    requires 2 <= radix <= 36
    ensures |tokens| == |text|
  {
    seq(|text|, i requires 0 <= i < |text| => PadStart(ToRadix(text[i], radix), width))
  }

  /** What a reader of a numeric encoding does: split at spaces and parse
      each piece in the radix. */
  function DecodeNumeric(s: JsString, radix: nat): (codes: seq<nat>)
  {
    if s == [] then []
    else
      var parts := Split(s, Space);
      seq(|parts|, i requires 0 <= i < |parts| => ParseRadix(parts[i], radix))
  }

  /** Decoding a numeric encoding gives back every code unit of the text,
      in order. */
  lemma NumericRoundTrip(text: JsString, radix: nat, width: nat)
    requires 2 <= radix <= 36
    ensures DecodeNumeric(Join(NumericTokens(text, radix, width), [Space]), radix) == text
  {
    var tokens := NumericTokens(text, radix, width);
    if text != [] {
      forall i | 0 <= i < |tokens|
        ensures Space !in tokens[i] && ParseRadix(tokens[i], radix) == text[i]
      {
        PaddedTokenRoundTrip(text[i], radix, width);
        DigitsAreNotSpace(tokens[i], radix);
      }
      SplitJoin(tokens, Space);
      PaddedTokenRoundTrip(text[0], radix, width);
    }
  }

  /** A string of radix digits holds no space. */
  lemma DigitsAreNotSpace(t: JsString, radix: nat)
    requires radix <= 36
    requires forall i :: 0 <= i < |t| ==> DigitValue(t[i]) < radix
    ensures Space !in t
  {
    assert DigitValue(Space) == 36;
  }

  // ---------------------------------------------------------------------
  // Morse
  // ---------------------------------------------------------------------

  /** The Morse table: letters, digits and the space, which becomes '/'. */
  const MorseCodeMap: map<CodeUnit, JsString> := MorseLettersAM + MorseLettersNZ + MorseDigitsSpace

  const MorseLettersAM: map<CodeUnit, JsString> := map[
    'A' as int := Ascii(".-"), 'B' as int := Ascii("-..."), 'C' as int := Ascii("-.-."),
    'D' as int := Ascii("-.."), 'E' as int := Ascii("."), 'F' as int := Ascii("..-."),
    'G' as int := Ascii("--."), 'H' as int := Ascii("...."), 'I' as int := Ascii(".."),
    'J' as int := Ascii(".---"), 'K' as int := Ascii("-.-"), 'L' as int := Ascii(".-.."),
    'M' as int := Ascii("--")
  ]

  const MorseLettersNZ: map<CodeUnit, JsString> := map[
    'N' as int := Ascii("-."), 'O' as int := Ascii("---"), 'P' as int := Ascii(".--."),
    'Q' as int := Ascii("--.-"), 'R' as int := Ascii(".-."), 'S' as int := Ascii("..."),
    'T' as int := Ascii("-"), 'U' as int := Ascii("..-"), 'V' as int := Ascii("...-"),
    'W' as int := Ascii(".--"), 'X' as int := Ascii("-..-"), 'Y' as int := Ascii("-.--"),
    'Z' as int := Ascii("--..")
  ]

  const MorseDigitsSpace: map<CodeUnit, JsString> := map[
    '1' as int := Ascii(".----"), '2' as int := Ascii("..---"), '3' as int := Ascii("...--"),
    '4' as int := Ascii("....-"), '5' as int := Ascii("....."), '6' as int := Ascii("-...."),
    '7' as int := Ascii("--..."), '8' as int := Ascii("---.."), '9' as int := Ascii("----."),
    '0' as int := Ascii("-----"), ' ' as int := Ascii("/")
  ]

  /** `toUpperCase` on the ASCII letters; every other unit is kept. */
  function UpperUnit(u: CodeUnit): (r: CodeUnit)
    ensures !(0x61 <= r <= 0x7A)
    ensures r == u || (0x61 <= u <= 0x7A && r == u - 0x20)
  {
    if 0x61 <= u <= 0x7A then u - 0x20 else u
  }

  /** `toUpperCase` on a string: no lower-case ASCII letter is left, and
      every other unit is kept. */
  function Upper(text: JsString): (r: JsString)
    ensures |r| == |text|
    ensures forall i :: 0 <= i < |r| ==> !(0x61 <= r[i] <= 0x7A)
    ensures forall i :: 0 <= i < |r| ==> r[i] == text[i] || (0x61 <= text[i] <= 0x7A && r[i] == text[i] - 0x20)
  {
    seq(|text|, i requires 0 <= i < |text| => UpperUnit(text[i]))
  }

  /** `morseCodeMap[char] || char`. */
  function MorseToken(u: CodeUnit): (t: JsString)
    ensures MorseSymbols(t) || t == [u]
    ensures Space !in t
  {
    if u in MorseCodeMap then
      MorseTableSymbols(u);
      MorseCodeMap[u]
    else
      assert Space in MorseDigitsSpace;
      [u]
  }

  function MorseTokens(text: JsString): (tokens: seq<JsString>)
    ensures |tokens| == |text|
  {
    seq(|text|, i requires 0 <= i < |text| => MorseToken(text[i]))
  }

  // ---------------------------------------------------------------------
  // Reverse
  // ---------------------------------------------------------------------

  /** `split('').reverse().join('')`: the code units in reverse order. */
  function Reversed(s: JsString): (r: JsString)
    ensures |r| == |s|
    ensures forall k :: 0 <= k < |s| ==> r[k] == s[|s| - 1 - k]
    decreases |s|
  {
    if s == [] then [] else Reversed(s[1..]) + [s[0]]
  }

  /** Reversing twice gives back the text. */
  lemma ReversedTwice(s: JsString)
    ensures Reversed(Reversed(s)) == s
  {
    var r := Reversed(s);
    assert forall k :: 0 <= k < |s| ==> Reversed(r)[k] == r[|s| - 1 - k] == s[k];
  }

  // ---------------------------------------------------------------------
  // convertText
  // ---------------------------------------------------------------------

  /** `convertText` for every algorithm but BASE64. The numeric encodings
      parse back to the code units and REVERSE holds the units in reverse
      order, so both give the text back; MORSE only splits into one token
      per upper-cased unit, since it cannot be inverted. */
  function ConvertText(text: JsString, algorithm: TextAlgorithm): (r: JsString)
    requires algorithm != Base64
    ensures text == [] ==> r == []
    ensures algorithm == Binary ==> DecodeNumeric(r, 2) == text
    ensures algorithm == Hex ==> DecodeNumeric(r, 16) == text
    ensures algorithm == Duodecimal ==> DecodeNumeric(r, 12) == text
    ensures algorithm == Morse && text != [] ==> Split(r, Space) == MorseTokens(Upper(text))
    ensures algorithm == Reverse ==> |r| == |text| && forall k :: 0 <= k < |r| ==> r[k] == text[|text| - 1 - k]
  {
    match algorithm
    case Binary =>
      NumericRoundTrip(text, 2, 8);
      Join(NumericTokens(text, 2, 8), [Space])
    case Hex =>
      NumericRoundTrip(text, 16, 2);
      Join(NumericTokens(text, 16, 2), [Space])
    case Duodecimal =>  // no padding
      NumericRoundTrip(text, 12, 0);
      Join(NumericTokens(text, 12, 0), [Space])
    case Morse =>
      MorseSplit(Upper(text));
      Join(MorseTokens(Upper(text)), [Space])
    case Reverse => Reversed(text)
  }

  /** BINARY and HEX emit one space-separated token per code unit; the
      token is at least 8 (binary) or 2 (hex) digits of its radix long and
      its value is the code unit. */
  lemma ConvertNumericTokens(text: JsString, i: nat)
    requires i < |text|
    ensures var parts := Split(ConvertText(text, Binary), Space);
      && |parts| == |text| && |parts[i]| >= 8
      && (forall k :: 0 <= k < |parts[i]| ==> DigitValue(parts[i][k]) < 2)
      && ParseRadix(parts[i], 2) == text[i]
    ensures var parts := Split(ConvertText(text, Hex), Space);
      && |parts| == |text| && |parts[i]| >= 2
      && (forall k :: 0 <= k < |parts[i]| ==> DigitValue(parts[i][k]) < 16)
      && ParseRadix(parts[i], 16) == text[i]
  {
    NumericTokenAt(text, 2, 8, i);
    NumericTokenAt(text, 16, 2, i);
  }

  /** Token i of a split numeric encoding is the padded code of unit i. */
  lemma NumericTokenAt(text: JsString, radix: nat, width: nat, i: nat)
    requires 2 <= radix <= 36 && i < |text|
    ensures var parts := Split(Join(NumericTokens(text, radix, width), [Space]), Space);
      && |parts| == |text| && |parts[i]| >= width
      && (forall k :: 0 <= k < |parts[i]| ==> DigitValue(parts[i][k]) < radix)
      && ParseRadix(parts[i], radix) == text[i]
  {
    TokensSplit(text, radix, width);
    PaddedTokenRoundTrip(text[i], radix, width);
  }

  /** The numeric tokens come back out of their join unchanged. */
  lemma TokensSplit(text: JsString, radix: nat, width: nat)
    requires 2 <= radix <= 36 && |text| >= 1
    ensures Split(Join(NumericTokens(text, radix, width), [Space]), Space) == NumericTokens(text, radix, width)
  {
    var tokens := NumericTokens(text, radix, width);
    forall i | 0 <= i < |tokens|
      ensures Space !in tokens[i]
    {
      PaddedTokenRoundTrip(text[i], radix, width);
      DigitsAreNotSpace(tokens[i], radix);
    }
    SplitJoin(tokens, Space);
  }

  /** A Morse code is made of dots, dashes and the word separator '/'. */
  predicate MorseSymbols(code: JsString)
  {
    forall j :: 0 <= j < |code| ==> code[j] == '.' as int || code[j] == '-' as int || code[j] == '/' as int
  }

  /** Every code in the table is made of Morse symbols. */
  lemma MorseTableSymbols(u: CodeUnit)
    requires u in MorseCodeMap
    ensures MorseSymbols(MorseCodeMap[u])
  {
    if u in MorseDigitsSpace {
      DigitsSpaceSymbols(u);
    } else if u in MorseLettersNZ {
      LettersNZSymbols(u);
    } else {
      LettersAMSymbols(u);
    }
  }

  lemma LettersAMSymbols(u: CodeUnit)
    requires u in MorseLettersAM
    ensures MorseSymbols(MorseLettersAM[u])
  {
  }

  lemma LettersNZSymbols(u: CodeUnit)
    requires u in MorseLettersNZ
    ensures MorseSymbols(MorseLettersNZ[u])
  {
  }

  lemma DigitsSpaceSymbols(u: CodeUnit)
    requires u in MorseDigitsSpace
    ensures MorseSymbols(MorseDigitsSpace[u])
  {
  }

  /** The Morse tokens come back out of their join unchanged. */
  lemma MorseSplit(text: JsString)
    ensures text != [] ==> Split(Join(MorseTokens(text), [Space]), Space) == MorseTokens(text)
  {
    if text != [] {
      SplitJoin(MorseTokens(text), Space);
    }
  }

  /** MORSE emits one space-separated token per code unit: the Morse code of
      the upper-cased unit when the table has it, the upper-cased unit
      itself otherwise. */
  lemma ConvertMorseTokens(text: JsString, i: nat)
    requires i < |text|
    ensures var parts := Split(ConvertText(text, Morse), Space);
      && |parts| == |text|
      && (UpperUnit(text[i]) in MorseCodeMap ==> parts[i] == MorseCodeMap[UpperUnit(text[i])])
      && (UpperUnit(text[i]) !in MorseCodeMap ==> parts[i] == [UpperUnit(text[i])])
  {
    assert Upper(text)[i] == UpperUnit(text[i]);
  }

  /** MORSE ignores the case of ASCII letters. */
  lemma ConvertMorseCaseInsensitive(text: JsString)
    ensures ConvertText(text, Morse) == ConvertText(Upper(text), Morse)
  {
    assert Upper(Upper(text)) == Upper(text);
  }

  /** REVERSE applied twice gives back the text. */
  lemma ConvertReverseTwice(text: JsString)
    ensures ConvertText(ConvertText(text, Reverse), Reverse) == text
  {
    ReversedTwice(text);
  }
}
