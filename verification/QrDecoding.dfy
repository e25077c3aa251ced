/** Reading text back from data bits: the mode, the character count, and the payload. */
module QrDecoding {
  import opened Decimals
  import opened Wrappers
  import opened QrTables
  import opened QrSymbol
  import opened QrSegments
  import opened QrEncoding

  /** The first n bits as a number; zero if there are not so many. */
  function Field(bits: seq<bool>, n: nat): nat
  {
    if n <= |bits| then FromBits(bits[..n]) else 0
  }

  function Rest(bits: seq<bool>, n: nat): seq<bool>
  {
    if n <= |bits| then bits[n..] else []
  }

  function DecimalDigits(value: nat, n: nat): (s: string)
    ensures |s| == n
  {
    if n == 0 then [] else DecimalDigits(value / 10, n - 1) + [CharOf(value % 10)]
  }

  function DecodeNumeric(bits: seq<bool>, count: nat): string
    decreases count
  {
    if count >= 3 then DecimalDigits(Field(bits, 10), 3) + DecodeNumeric(Rest(bits, 10), count - 3)
    else DecimalDigits(Field(bits, 3 * count + 1), count)
  }

  function CharsetChar(k: nat): char
  {
    if k < |CHARSET| then CHARSET[k] else ' '
  }

  function DecodeAlphanumeric(bits: seq<bool>, count: nat): string
    decreases count
  {
    if count >= 2 then
      var pair := Field(bits, 11);
      [CharsetChar(pair / 45), CharsetChar(pair % 45)] + DecodeAlphanumeric(Rest(bits, 11), count - 2)
    else if count == 0 then []
    else [CharsetChar(Field(bits, 6))]
  }

  function DecodeBytes(bits: seq<bool>, count: nat): string
    decreases count
  {
    if count == 0 then [] else [(Field(bits, 8) % 256) as char] + DecodeBytes(Rest(bits, 8), count - 1)
  }

  function DecodePayload(mode: Mode, bits: seq<bool>, count: nat): string
  {
    match mode
    case Numeric => DecodeNumeric(bits, count)
    case Alphanumeric => DecodeAlphanumeric(bits, count)
    case ByteMode => DecodeBytes(bits, count)
  }

  /** The text that data bits carry, or None for a mode that the encoder does not use. */
  function DecodeText(bits: seq<bool>, v: Version): Option<string>
  {
    var number, rest := Field(bits, 4), Rest(bits, 4);
    if number == 0 then Some("")  // the terminator
    else if number != 1 && number != 2 && number != 4 then None
    else
      var mode := if number == 1 then Numeric else if number == 2 then Alphanumeric else ByteMode;
      Some(DecodePayload(mode, Rest(rest, mode.CountBits(v)), Field(rest, mode.CountBits(v))))
  }

  // ----- the payloads

  lemma ReadField(val: nat, n: nat, rest: seq<bool>)
    requires val < Pow2(n)
    ensures Field(Bits(val, n) + rest, n) == val
    ensures Rest(Bits(val, n) + rest, n) == rest
  {
    FromBitsInverse(val, n);
    assert (Bits(val, n) + rest)[..n] == Bits(val, n);
  }

  lemma {:induction false} DigitsOfNumber(digits: string)
    requires AllDigits(digits)
    ensures DecimalDigits(Value(digits), |digits|) == digits
  {
    if digits != [] {
      DigitsOfNumber(digits[..|digits| - 1]);
    }
  }

  lemma {:induction false} NumericRoundTrip(text: string, rest: seq<bool>)
    requires AllDigits(text)
    ensures DecodeNumeric(NumericBits(text) + rest, |text|) == text
  {
    hide Field, Rest, Bits, Value, DecimalDigits, Pow2;
    if |text| >= 3 {
      var group, tail := text[..3], text[3..];
      DigitsBound(group);
      DigitsOfNumber(group);
      NumericRoundTrip(tail, rest);
      assert NumericBits(text) + rest == Bits(Value(group), 10) + (NumericBits(tail) + rest);
      ReadField(Value(group), 10, NumericBits(tail) + rest);
    } else if text == [] {
      DigitsOfNumber(DecimalDigits(Field(rest, 1), 0));
    } else {
      DigitsBound(text);
      DigitsOfNumber(text);
      ReadField(Value(text), 3 * |text| + 1, rest);
    }
  }

  lemma {:induction false} AlphanumericRoundTrip(text: string, rest: seq<bool>)
    requires IsAlphanumeric(text)
    ensures DecodeAlphanumeric(AlphanumericBits(text) + rest, |text|) == text
  {
    hide Field, Rest, Bits, CharsetNumber, Pow2, IndexOf, CHARSET;
    if |text| >= 2 {
      var group, tail := text[..2], text[2..];
      CharsetNumberBound(group);
      AlphanumericRoundTrip(tail, rest);
      assert AlphanumericBits(text) + rest == Bits(CharsetNumber(group), 11) + (AlphanumericBits(tail) + rest);
      ReadField(CharsetNumber(group), 11, AlphanumericBits(tail) + rest);
      var a, b := IndexOf(CHARSET, text[0]), IndexOf(CHARSET, text[1]);
      assert InCharset(text[0]) && InCharset(text[1]);
      CharsetSize();
      assert (45 * a + b) / 45 == a && (45 * a + b) % 45 == b;
    } else if |text| == 1 {
      assert InCharset(text[0]);
      CharsetNumberBound(text);
      ReadField(CharsetNumber(text), 6, rest);
    }
  }

  lemma ByteChar(c: char)
    requires c as int < 256
    ensures (c as int % 256) as char == c
  {
  }

  lemma {:induction false} ByteRoundTrip(text: string, rest: seq<bool>)
    requires IsText(text)
    ensures DecodeBytes(ByteBits(text) + rest, |text|) == text
  {
    if text != [] {
      assert Pow2(8) == 256;
      ByteChar(text[0]);
      hide Field, Rest, Bits, Pow2;
      ByteRoundTrip(text[1..], rest);
      assert ByteBits(text) + rest == Bits(text[0] as int, 8) + (ByteBits(text[1..]) + rest);
      ReadField(text[0] as int, 8, ByteBits(text[1..]) + rest);
    }
  }

  // ----- the whole segment

  lemma ReadHeader(seg: Segment, v: Version, rest: seq<bool>)
    requires seg.numChars < Pow2(seg.mode.CountBits(v))
    ensures var bits := SegmentBits([seg], v) + rest;
            && Field(bits, 4) == seg.mode.ModeBits()
            && Field(Rest(bits, 4), seg.mode.CountBits(v)) == seg.numChars
            && Rest(Rest(bits, 4), seg.mode.CountBits(v)) == seg.data + rest
  {
    assert Pow2(4) == 16;
    hide Field, Rest, Bits, Pow2;
    var mode, count := Bits(seg.mode.ModeBits(), 4), Bits(seg.numChars, seg.mode.CountBits(v));
    assert [seg][..0] == [];
    assert SegmentBits([seg], v) == mode + count + seg.data;
    assert SegmentBits([seg], v) + rest == mode + (count + (seg.data + rest));
    ReadField(seg.mode.ModeBits(), 4, count + (seg.data + rest));
    ReadField(seg.numChars, seg.mode.CountBits(v), seg.data + rest);
  }

  lemma DecodeSegment(seg: Segment, v: Version, rest: seq<bool>)
    requires seg.numChars < Pow2(seg.mode.CountBits(v))
    ensures DecodeText(SegmentBits([seg], v) + rest, v) == Some(DecodePayload(seg.mode, seg.data + rest, seg.numChars))
  {
    hide Field, Rest, SegmentBits, Pow2, DecodeNumeric, DecodeAlphanumeric, DecodeBytes, Mode.CountBits;
    ReadHeader(seg, v, rest);
  }

  /** Whatever follows it, a text's segment decodes to the text. */
  lemma TextRoundTrip(text: string, v: Version, rest: seq<bool>)
    requires IsText(text) && text != [] && TotalBits(SegmentsOf(text), v) != -1
    ensures DecodeText(SegmentBits(SegmentsOf(text), v) + rest, v) == Some(text)
  {
    var seg := SegmentsOf(text)[0];
    assert SegmentsOf(text) == [seg];
    SegmentBitsLength([seg], v);
    DecodeSegment(seg, v, rest);
    hide SegmentBits, TotalBits, NumericBits, AlphanumericBits, ByteBits, Pow2, DecodeText;
    hide DecodeNumeric, DecodeAlphanumeric, DecodeBytes, Mode.CountBits;
    if AllDigits(text) {
      NumericRoundTrip(text, rest);
    } else if IsAlphanumeric(text) {
      AlphanumericRoundTrip(text, rest);
    } else {
      ByteRoundTrip(text, rest);
    }
  }

  /** The empty text leaves only padding, which begins with the terminator. */
  lemma EmptyRoundTrip(v: Version, capacity: nat)
    requires capacity >= 1
    ensures DecodeText(SegmentBits([], v) + Padding(0, capacity), v) == Some("")
  {
    var bits := SegmentBits([], v) + Padding(0, capacity);
    assert Pow2(4) == 16;
    ZeroBits(4);
    assert bits[..4] == Bits(0, 4);
    FromBitsInverse(0, 4);
  }

  /** For every text that fits, decoding the data bits that are packed gives the text back. */
  lemma PackedTextRoundTrip(text: string, v: Version, capacity: nat)
    requires IsText(text) && TotalBits(SegmentsOf(text), v) != -1 && capacity >= 1
    requires |SegmentBits(SegmentsOf(text), v)| <= 8 * capacity
    ensures var bits := SegmentBits(SegmentsOf(text), v);
            DecodeText(bits + Padding(|bits|, capacity), v) == Some(text)
  {
    assert SegmentBits([], v) == [];
    hide SegmentBits, Padding, DecodeText, TotalBits;
    var bits := SegmentBits(SegmentsOf(text), v);
    if text == [] {
      EmptyRoundTrip(v, capacity);
    } else {
      TextRoundTrip(text, v, Padding(|bits|, capacity));
    }
  }
}
