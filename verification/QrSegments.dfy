/**
 Turning text into the data codewords of a QR code and back (section 7.4 of ISO/IEC 18004:2015): numeric,
 alphanumeric and byte mode.
 */
module QrSegments {
  import opened Decimals
  import opened Wrappers
  import opened QrTables
  import opened QrSymbol

  // ----- numbers as bits

  function Pow2(n: nat): (p: nat)
    ensures p >= 1
  {
    if n == 0 then 1 else 2 * Pow2(n - 1)
  }

  /** The len low bits of val, most significant first. */
  function Bits(val: nat, len: nat): (b: seq<bool>)
    ensures |b| == len
  {
    if len == 0 then [] else Bits(val / 2, len - 1) + [val % 2 == 1]
  }

  function FromBits(b: seq<bool>): (val: nat)
  {
    if b == [] then 0 else 2 * FromBits(b[..|b| - 1]) + (if b[|b| - 1] then 1 else 0)
  }

  lemma {:induction false} FromBitsInverse(val: nat, len: nat)
    requires val < Pow2(len)
    ensures FromBits(Bits(val, len)) == val
  {
    if len > 0 {
      FromBitsInverse(val / 2, len - 1);
      assert Bits(val, len)[..len - 1] == Bits(val / 2, len - 1);
    }
  }

  /** The C++ operator >>. */
  function ShiftRight(val: nat, n: nat): nat
  {
    if n == 0 then val else ShiftRight(val, n - 1) / 2
  }

  lemma {:induction false} ShiftRightZero(val: nat, n: nat)
    ensures ShiftRight(val, n) == 0 <==> val < Pow2(n)
  {
    ShiftRightHalf(val, n);
    if n > 0 {
      ShiftRightZero(val / 2, n - 1);
    }
  }

  lemma {:induction false} ShiftRightHalf(val: nat, n: nat)
    ensures n > 0 ==> ShiftRight(val, n) == ShiftRight(val / 2, n - 1)
  {
    if n > 1 {
      ShiftRightHalf(val, n - 1);
    }
  }

  class BitBuffer {
    var bits: seq<bool>

    constructor ()
      ensures bits == []
    {
      bits := [];
    }

    /** Appends the low-order bits of a value; refuses a value that does not fit. */
    method AppendBits(val: nat, len: int) returns (ok: bool)
      modifies this
      ensures ok <==> 0 <= len <= 31 && val < Pow2(len)
      ensures bits == if ok then old(bits) + Bits(val, len) else old(bits)
    {
      if len < 0 || len > 31 {
        return false;
      }
      ShiftRightZero(val, len);
      if ShiftRight(val, len) != 0 {
        return false;
      }
      ok := true;
      var i := len - 1;
      while i >= 0
        invariant -1 <= i < len
        invariant bits == old(bits) + Bits(ShiftRight(val, i + 1), len - i - 1)
      {
        bits := bits + [ShiftRight(val, i) % 2 == 1];
        i := i - 1;
      }
    }
  }

  // ----- segments

  /** A zero-terminated C string: bytes, none of them zero. */
  predicate IsText(text: string)
  {
    forall i :: 0 <= i < |text| ==> 0 < text[i] as int < 256
  }

  datatype Mode = Numeric | Alphanumeric | ByteMode {
    function ModeBits(): nat {
      match this
      case Numeric => 1
      case Alphanumeric => 2
      case ByteMode => 4
    }

    /** The width of the character count field. */
    function CountBits(v: Version): nat {
      match this
      case Numeric => if v < 10 then 10 else if v < 27 then 12 else 14
      case Alphanumeric => if v < 10 then 9 else if v < 27 then 11 else 13
      case ByteMode => if v < 10 then 8 else 16
    }
  }

  datatype Segment = Segment(mode: Mode, numChars: nat, data: seq<bool>)

  datatype SegmentError = NotNumeric | NotAlphanumeric | TooLong

  const INT_MAX := 0x7FFF_FFFF

  const CHARSET: string := "0123456789ABCDEFGHIJKLMNOPQRSTUVWXYZ $%*+-./:"

  predicate InCharset(c: char)
  {
    IndexOf(CHARSET, c) < |CHARSET|
  }

  predicate IsAlphanumeric(text: string)
  {
    forall i :: 0 <= i < |text| ==> InCharset(text[i])
  }

  /** Three digits in ten bits, two in seven, one in four. */
  function NumericBits(text: string): seq<bool>
    requires AllDigits(text)
  {
    if |text| >= 3 then Bits(Value(text[..3]), 10) + NumericBits(text[3..])
    else if text == [] then []
    else Bits(Value(text), 3 * |text| + 1)
  }

  function CharsetNumber(chars: string): nat
    requires IsAlphanumeric(chars)
  {
    if chars == [] then 0 else 45 * CharsetNumber(chars[..|chars| - 1]) + IndexOf(CHARSET, chars[|chars| - 1])
  }

  /** Two characters in eleven bits, one in six. */
  function AlphanumericBits(text: string): seq<bool>
    requires IsAlphanumeric(text)
  {
    if |text| >= 2 then Bits(CharsetNumber(text[..2]), 11) + AlphanumericBits(text[2..])
    else if text == [] then []
    else Bits(CharsetNumber(text), 6)
  }

  /** Each byte in eight bits. */
  function ByteBits(text: string): seq<bool>
  {
    if text == [] then [] else Bits(text[0] as int, 8) + ByteBits(text[1..])
  }

  // ----- making segments

  lemma DigitsBound(d: string)
    requires AllDigits(d) && |d| <= 3
    ensures |d| == 1 ==> Value(d) == DigitOf(d[0]) < Pow2(4)
    ensures |d| == 2 ==> Value(d) == 10 * DigitOf(d[0]) + DigitOf(d[1]) < Pow2(7)
    ensures |d| == 3 ==> Value(d) == 100 * DigitOf(d[0]) + 10 * DigitOf(d[1]) + DigitOf(d[2]) < Pow2(10)
  {
    if |d| >= 2 {
      assert d[..|d| - 1][..|d| - 2] == d[..|d| - 2];
    }
    assert Pow2(4) == 16;
    assert Pow2(7) == 8 * Pow2(4);
    assert Pow2(10) == 8 * Pow2(7);
  }

  method MakeNumeric(text: string) returns (r: Result<Segment, SegmentError>)
    ensures r == if AllDigits(text) then Ok(Segment(Numeric, |text|, NumericBits(text))) else Err(NotNumeric)
  {
    hide Value, Bits, Pow2, NumericBits, DigitOf;
    var bb := new BitBuffer();
    var accumData, accumCount, charCount := 0, 0, 0;
    assert text[0..] == text;
    ValueOfNone();
    while charCount < |text|
      invariant 0 <= accumCount <= charCount <= |text| && accumCount < 3
      invariant forall i :: 0 <= i < charCount ==> IsDigit(text[i])
      invariant accumData == Value(text[charCount - accumCount..charCount])
      invariant AllDigits(text) ==> bb.bits + NumericBits(text[charCount - accumCount..]) == NumericBits(text)
    {
      var c := text[charCount];
      if c < '0' || c > '9' {
        return Err(NotNumeric);
      }
      ghost var start := charCount - accumCount;
      ghost var group := text[start..charCount + 1];
      ValueOfAppend(text[start..charCount], c);
      assert text[start..charCount] + [c] == group;
      accumData := accumData * 10 + DigitOf(c);
      accumCount := accumCount + 1;
      charCount := charCount + 1;
      if accumCount == 3 {
        DigitsBound(group);
        if AllDigits(text) {
          NumericGroup(text[start..], group, text[charCount..]);
        }
        var ok := bb.AppendBits(accumData, 10);
        accumData, accumCount := 0, 0;
        assert text[charCount..charCount] == [];
      }
    }
    ghost var rest := text[charCount - accumCount..];
    assert rest == text[charCount - accumCount..charCount];
    NumericRest(rest);
    assert bb.bits + [] == bb.bits;
    if accumCount > 0 {
      DigitsBound(rest);
      var ok := bb.AppendBits(accumData, accumCount * 3 + 1);
    }
    r := Ok(Segment(Numeric, charCount, bb.bits));
  }

  lemma NumericGroup(text: string, group: string, rest: string)
    requires AllDigits(text) && text == group + rest && |group| == 3
    ensures AllDigits(group) && AllDigits(rest)
    ensures NumericBits(text) == Bits(Value(group), 10) + NumericBits(rest)
  {
    assert text[..3] == group && text[3..] == rest;
  }

  lemma NumericRest(rest: string)
    requires AllDigits(rest) && |rest| < 3
    ensures NumericBits(rest) == if rest == [] then [] else Bits(Value(rest), 3 * |rest| + 1)
  {
  }

  lemma ValueOfNone()
    ensures Value([]) == 0
  {
  }

  lemma ValueOfAppend(digits: string, c: char)
    requires AllDigits(digits) && IsDigit(c)
    ensures Value(digits + [c]) == 10 * Value(digits) + DigitOf(c)
  {
    assert (digits + [c])[..|digits|] == digits;
  }

  lemma CharsetNumberBound(d: string)
    requires IsAlphanumeric(d) && |d| <= 2
    ensures |d| == 1 ==> CharsetNumber(d) == IndexOf(CHARSET, d[0]) < Pow2(6)
    ensures |d| == 2 ==> CharsetNumber(d) == 45 * IndexOf(CHARSET, d[0]) + IndexOf(CHARSET, d[1]) < Pow2(11)
  {
    hide IndexOf, CHARSET, Pow2;
    CharsetSize();
    if |d| == 2 {
      assert d[..1][..0] == [];
      assert InCharset(d[0]) && InCharset(d[1]);
    } else if |d| == 1 {
      assert InCharset(d[0]);
    }
  }

  lemma CharsetSize()
    ensures |CHARSET| == 45 && Pow2(6) == 64 && Pow2(11) == 2048
  {
    assert Pow2(11) == 32 * Pow2(6);
  }

  lemma CharsetNumberAppend(chars: string, c: char)
    requires IsAlphanumeric(chars) && InCharset(c)
    ensures CharsetNumber([]) == 0
    ensures IsAlphanumeric(chars + [c]) && CharsetNumber(chars + [c]) == 45 * CharsetNumber(chars) + IndexOf(CHARSET, c)
  {
    hide IndexOf, CHARSET;
    assert (chars + [c])[..|chars|] == chars;
  }

  /** std::strchr on the character set. */
  method FindInCharset(c: char) returns (r: Option<nat>)
    ensures r == if InCharset(c) then Some(IndexOf(CHARSET, c)) else None
  {
    hide CHARSET, IndexOf;
    var k := IndexOf(CHARSET, c);
    r := if k < |CHARSET| then Some(k) else None;
  }

  method MakeAlphanumeric(text: string) returns (r: Result<Segment, SegmentError>)
    ensures r == if IsAlphanumeric(text) then Ok(Segment(Alphanumeric, |text|, AlphanumericBits(text))) else Err(NotAlphanumeric)
  {
    hide CharsetNumber, Bits, Pow2, CHARSET, IndexOf, AlphanumericBits, InCharset;
    var bb := new BitBuffer();
    var accumData, accumCount, charCount := 0, 0, 0;
    assert text[0..] == text;
    assert text[0..0] == [];
    CharsetNumberEmpty();
    while charCount < |text|
      invariant 0 <= accumCount <= charCount <= |text| && accumCount < 2
      invariant forall i :: 0 <= i < charCount ==> InCharset(text[i])
      invariant accumData == CharsetNumber(text[charCount - accumCount..charCount])
      invariant IsAlphanumeric(text) ==>
                  bb.bits + AlphanumericBits(text[charCount - accumCount..]) == AlphanumericBits(text)
    {
      var c := text[charCount];
      var temp := FindInCharset(c);
      if temp.None? {
        return Err(NotAlphanumeric);
      }
      ghost var start := charCount - accumCount;
      ghost var group := text[start..charCount + 1];
      CharsetNumberAppend(text[start..charCount], c);
      assert text[start..charCount] + [c] == group;
      accumData := accumData * 45 + temp.value;
      accumCount := accumCount + 1;
      charCount := charCount + 1;
      if accumCount == 2 {
        CharsetNumberBound(group);
        if IsAlphanumeric(text) {
          AlphanumericGroup(text[start..], group, text[charCount..]);
        }
        var ok := bb.AppendBits(accumData, 11);
        accumData, accumCount := 0, 0;
        assert text[charCount..charCount] == [];
      }
    }
    ghost var rest := text[charCount - accumCount..];
    assert rest == text[charCount - accumCount..charCount];
    AlphanumericRest(rest);
    assert bb.bits + [] == bb.bits;
    if accumCount > 0 {
      CharsetNumberBound(rest);
      var ok := bb.AppendBits(accumData, 6);
    }
    r := Ok(Segment(Alphanumeric, charCount, bb.bits));
  }

  lemma AlphanumericGroup(text: string, group: string, rest: string)
    requires IsAlphanumeric(text) && text == group + rest && |group| == 2
    ensures IsAlphanumeric(group) && IsAlphanumeric(rest)
    ensures AlphanumericBits(text) == Bits(CharsetNumber(group), 11) + AlphanumericBits(rest)
  {
    hide CHARSET;
    assert text[..2] == group && text[2..] == rest;
  }

  lemma AlphanumericRest(rest: string)
    requires IsAlphanumeric(rest) && |rest| < 2
    ensures AlphanumericBits(rest) == if rest == [] then [] else Bits(CharsetNumber(rest), 6)
  {
  }

  lemma CharsetNumberEmpty()
    ensures CharsetNumber([]) == 0
  {
  }

  method MakeBytes(data: string) returns (r: Result<Segment, SegmentError>)
    requires forall i :: 0 <= i < |data| ==> data[i] as int < 256
    ensures r == if |data| > INT_MAX then Err(TooLong) else Ok(Segment(ByteMode, |data|, ByteBits(data)))
  {
    if |data| > INT_MAX {
      return Err(TooLong);
    }
    assert Pow2(8) == 256;
    hide Bits, Pow2, ByteBits;
    var bb := new BitBuffer();
    ByteBitsStep(data, 0);
    for i := 0 to |data|
      invariant bb.bits + ByteBits(data[i..]) == ByteBits(data)
    {
      ByteBitsStep(data, i);
      var ok := bb.AppendBits(data[i] as int, 8);
    }
    ByteBitsStep(data, |data|);
    assert bb.bits + [] == bb.bits;
    r := Ok(Segment(ByteMode, |data|, bb.bits));
  }

  lemma ByteBitsStep(data: string, i: nat)
    requires i <= |data|
    ensures data[0..] == data
    ensures ByteBits(data[i..]) == if i == |data| then [] else Bits(data[i] as int, 8) + ByteBits(data[i + 1..])
  {
    assert i < |data| ==> data[i..][1..] == data[i + 1..];
  }

  /** The most efficient mode that can carry the whole text; no segment at all for the empty text. */
  function SegmentsOf(text: string): (segs: seq<Segment>)
    ensures |segs| <= 1
  {
    if text == [] then []
    else if AllDigits(text) then [Segment(Numeric, |text|, NumericBits(text))]
    else if IsAlphanumeric(text) then [Segment(Alphanumeric, |text|, AlphanumericBits(text))]
    else [Segment(ByteMode, |text|, ByteBits(text))]
  }

  method CheckNumeric(text: string) returns (b: bool)
    ensures b == AllDigits(text)
  {
    for i := 0 to |text|
      invariant forall k :: 0 <= k < i ==> IsDigit(text[k])
    {
      if text[i] < '0' || text[i] > '9' {
        return false;
      }
    }
    b := true;
  }

  method CheckAlphanumeric(text: string) returns (b: bool)
    ensures b == IsAlphanumeric(text)
  {
    hide CHARSET, IndexOf;
    for i := 0 to |text|
      invariant forall k :: 0 <= k < i ==> InCharset(text[k])
    {
      if IndexOf(CHARSET, text[i]) == |CHARSET| {
        return false;
      }
    }
    b := true;
  }

  method MakeSegments(text: string) returns (r: Result<seq<Segment>, SegmentError>)
    requires IsText(text)
    ensures r == if |text| > INT_MAX && !AllDigits(text) && !IsAlphanumeric(text) then Err(TooLong) else Ok(SegmentsOf(text))
  {
    hide CHARSET;
    if text == [] {
      return Ok([]);
    }
    var numeric := CheckNumeric(text);
    var alphanumeric := CheckAlphanumeric(text);
    var seg: Result<Segment, SegmentError>;
    if numeric {
      seg := MakeNumeric(text);
    } else if alphanumeric {
      seg := MakeAlphanumeric(text);
    } else {
      seg := MakeBytes(text);
    }
    r := if seg.Ok? then Ok([seg.value]) else Err(seg.error);
  }
}
