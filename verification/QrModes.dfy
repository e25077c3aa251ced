/** The encoding modes by the tables of ISO/IEC 18004:2015, and why the mode chosen for a text is the shortest. */
module QrModes {
  import opened Decimals
  import opened GaloisField
  import opened QrTables
  import opened QrSymbol
  import opened QrSegments
  import opened QrEncoding

  // ----- the shortest mode

  predicate CanHold(m: Mode, text: string)
  {
    match m
    case Numeric => AllDigits(text)
    case Alphanumeric => IsAlphanumeric(text)
    case ByteMode => true
  }

  function Payload(m: Mode, text: string): seq<bool>
    requires CanHold(m, text)
  {
    match m
    case Numeric => NumericBits(text)
    case Alphanumeric => AlphanumericBits(text)
    case ByteMode => ByteBits(text)
  }

  lemma {:induction false} NumericLength(text: string)
    requires AllDigits(text)
    ensures |NumericBits(text)| == 10 * (|text| / 3) + (if |text| % 3 == 0 then 0 else 3 * (|text| % 3) + 1)
  {
    hide Bits, Value;
    if |text| >= 3 {
      NumericLength(text[3..]);
    }
  }

  lemma {:induction false} AlphanumericLength(text: string)
    requires IsAlphanumeric(text)
    ensures |AlphanumericBits(text)| == 11 * (|text| / 2) + 6 * (|text| % 2)
  {
    hide Bits, CharsetNumber, CHARSET;
    if |text| >= 2 {
      AlphanumericLength(text[2..]);
    }
  }

  lemma {:induction false} ByteLength(text: string)
    ensures |ByteBits(text)| == 8 * |text|
  {
    hide Bits;
    if text != [] {
      ByteLength(text[1..]);
    }
  }

  /** The bits of a text in a mode: the indicator, the character count, and the payload. */
  function BitsIn(m: Mode, text: string, v: Version): nat
    requires CanHold(m, text)
  {
    4 + m.CountBits(v) + |Payload(m, text)|
  }

  /** No mode that can hold the text needs fewer bits than the one chosen, in any version. */
  lemma ChosenModeIsShortest(text: string, m: Mode, v: Version)
    requires text != [] && CanHold(m, text)
    ensures |SegmentsOf(text)| == 1 && CanHold(SegmentsOf(text)[0].mode, text)
    ensures SegmentsOf(text)[0].numChars == |text| && SegmentsOf(text)[0].data == Payload(SegmentsOf(text)[0].mode, text)
    ensures BitsIn(SegmentsOf(text)[0].mode, text, v) <= BitsIn(m, text, v)
  {
    hide NumericBits, AlphanumericBits, ByteBits, CHARSET, IsAlphanumeric, AllDigits;
    if CanHold(Numeric, text) {
      NumericLength(text);
    }
    if CanHold(Alphanumeric, text) {
      AlphanumericLength(text);
    }
    ByteLength(text);
  }

  // ----- when the length is out of range

  /** Every character count fits its field. */
  predicate CountsFit(segs: seq<Segment>, v: Version)
  {
    forall i :: 0 <= i < |segs| ==> segs[i].numChars < Pow2(segs[i].mode.CountBits(v))
  }

  /** The length is given exactly when all counts fit their fields and it fits an int. */
  lemma {:induction false} LengthExactly(segs: seq<Segment>, v: Version)
    ensures TotalBits(segs, v)
         == if CountsFit(segs, v) && |SegmentBits(segs, v)| <= INT_MAX then |SegmentBits(segs, v)| else -1
  {
    hide Pow2, Bits, Mode.CountBits, Mode.ModeBits;
    if segs != [] {
      var init, last := segs[..|segs| - 1], segs[|segs| - 1];
      LengthExactly(init, v);
      assert CountsFit(segs, v) <==> CountsFit(init, v) && last.numChars < Pow2(last.mode.CountBits(v)) by {
        assert segs == init + [last];
      }
      hide CountsFit;
    }
  }

  /** Segments fit a version exactly when their counts fit their fields and their bits its data codewords. */
  lemma FitsExactly(segs: seq<Segment>, v: Version, ecl: Ecc)
    ensures Fits(segs, v, ecl)
       <==> CountsFit(segs, v) && |SegmentBits(segs, v)| <= INT_MAX
            && |SegmentBits(segs, v)| <= 8 * NumDataCodewords(v, ecl)
  {
    hide CountsFit, SegmentBits, TotalBits, NumDataCodewords;
    LengthExactly(segs, v);
  }

  /** In the order of the levels more error correction leaves less data. */
  lemma LevelsInOrder(v: Version)
    ensures Rank(Low) < Rank(Medium) < Rank(Quartile) < Rank(High)
    ensures NumDataCodewords(v, Low) > NumDataCodewords(v, Medium)
    ensures NumDataCodewords(v, Medium) > NumDataCodewords(v, Quartile)
    ensures NumDataCodewords(v, Quartile) > NumDataCodewords(v, High)
  {
    hide RawCodewords, EccLen, NumBlocks;
    LowBeforeMedium(v);
    MediumBeforeQuartile(v);
    QuartileBeforeHigh(v);
  }

  lemma LowBeforeMedium(v: Version)
    ensures EccLen(v, Low) * NumBlocks(v, Low) < EccLen(v, Medium) * NumBlocks(v, Medium)
  {
  }

  lemma MediumBeforeQuartile(v: Version)
    ensures EccLen(v, Medium) * NumBlocks(v, Medium) < EccLen(v, Quartile) * NumBlocks(v, Quartile)
  {
  }

  lemma QuartileBeforeHigh(v: Version)
    ensures EccLen(v, Quartile) * NumBlocks(v, Quartile) < EccLen(v, High) * NumBlocks(v, High)
  {
  }

  // ----- the tables

  /** The mode indicators (table 2). */
  lemma ModeIndicators()
    ensures Bits(Numeric.ModeBits(), 4) == [false, false, false, true]
    ensures Bits(Alphanumeric.ModeBits(), 4) == [false, false, true, false]
    ensures Bits(ByteMode.ModeBits(), 4) == [false, true, false, false]
  {
    FourBits(1);
    FourBits(2);
    FourBits(4);
    hide Bits;
  }

  lemma FourBits(val: nat)
    requires val < 16
    ensures Bits(val, 4) == [val / 8 == 1, val / 4 % 2 == 1, val / 2 % 2 == 1, val % 2 == 1]
  {
    assert Bits(val / 8, 1) == [] + [val / 8 % 2 == 1];
    assert Bits(val / 4, 2) == [val / 8 == 1] + [val / 4 % 2 == 1];
    assert Bits(val / 2, 3) == [val / 8 == 1, val / 4 % 2 == 1] + [val / 2 % 2 == 1];
  }

  /** The widths of the character count (table 3). */
  lemma CountWidths(v: Version)
    ensures v <= 9 ==> Numeric.CountBits(v) == 10 && Alphanumeric.CountBits(v) == 9 && ByteMode.CountBits(v) == 8
    ensures 10 <= v <= 26 ==> Numeric.CountBits(v) == 12 && Alphanumeric.CountBits(v) == 11 && ByteMode.CountBits(v) == 16
    ensures 27 <= v ==> Numeric.CountBits(v) == 14 && Alphanumeric.CountBits(v) == 13 && ByteMode.CountBits(v) == 16
  {
  }

  /** The number of an alphanumeric character (table 5). */
  function CharacterNumber(c: char): int
  {
    if '0' <= c <= '9' then c as int - '0' as int
    else if 'A' <= c <= 'Z' then c as int - 'A' as int + 10
    else match c
         case ' ' => 36
         case '$' => 37
         case '%' => 38
         case '*' => 39
         case '+' => 40
         case '-' => 41
         case '.' => 42
         case '/' => 43
         case ':' => 44
         case _ => -1
  }

  lemma CharacterAt(k: nat)
    requires k < 45
    ensures |CHARSET| == 45 && CharacterNumber(CHARSET[k]) == k
  {
    if k < 10 {
      DigitAt(k);
    } else if k < 36 {
      LetterAt(k);
    } else {
      SymbolAt(k);
    }
  }

  lemma DigitAt(k: nat)
    requires k < 10
    ensures CharacterNumber(CHARSET[k]) == k
  {
    assert CHARSET[k] == ['0', '1', '2', '3', '4', '5', '6', '7', '8', '9'][k];
    hide CHARSET;
  }

  lemma LetterAt(k: nat)
    requires 10 <= k < 36
    ensures CharacterNumber(CHARSET[k]) == k
  {
    assert CHARSET[k] == 'A' + (k - 10) as char;
    hide CHARSET;
  }

  lemma SymbolAt(k: nat)
    requires 36 <= k < 45
    ensures CharacterNumber(CHARSET[k]) == k
  {
    assert CHARSET[k] == [' ', '$', '%', '*', '+', '-', '.', '/', ':'][k - 36];
    hide CHARSET;
  }

  lemma CharacterNumbers(c: char)
    ensures if CharacterNumber(c) >= 0 then IndexOf(CHARSET, c) == CharacterNumber(c) else !InCharset(c)
  {
    CharacterAt(0);
    var i, k := IndexOf(CHARSET, c), CharacterNumber(c);
    hide IndexOf;
    if i < 45 {
      CharacterAt(i);
    } else if k >= 0 {
      CharacterOf(c);
    }
  }

  lemma CharacterOf(c: char)
    requires CharacterNumber(c) >= 0
    ensures CharacterNumber(c) < |CHARSET| && CHARSET[CharacterNumber(c)] == c
  {
    hide CHARSET;
    CharacterAt(CharacterNumber(c));
    NumberTellsApart(c, CHARSET[CharacterNumber(c)]);
  }

  lemma NumberTellsApart(c: char, d: char)
    requires CharacterNumber(c) == CharacterNumber(d) >= 0
    ensures c == d
  {
  }

  // ----- the padding

  /** Pad byte k: 0xEC and 0x11 by turns. */
  function PadByte(k: int): Byte
  {
    if k % 2 == 0 then PAD_EC else PAD_11
  }

  lemma {:induction false} PadByteAt(n: nat, k: nat)
    requires k < n
    ensures PadBytes(n)[8 * k..8 * k + 8] == PadByte(k)
  {
    if k < n - 1 {
      PadByteAt(n - 1, k);
      assert PadBytes(n)[8 * k..8 * k + 8] == PadBytes(n - 1)[8 * k..8 * k + 8];
    }
  }

  /** Where the whole pad bytes begin: after the data, up to four zeros, and the rest of a byte. */
  function FirstPad(used: nat, codewords: nat): nat
    requires used <= 8 * codewords
  {
    (used + (if 8 * codewords - used < 4 then 8 * codewords - used else 4) + 7) / 8
  }

  lemma PaddingParts(used: nat, codewords: nat)
    requires used <= 8 * codewords
    ensures var first := FirstPad(used, codewords);
            && used <= 8 * first && first <= codewords
            && Padding(used, codewords) == Zeros(8 * first - used) + PadBytes(codewords - first)
  {
    hide PadBytes;
    var first := FirstPad(used, codewords);
    var terminator := if 8 * codewords - used < 4 then 8 * codewords - used else 4;
    var toByte := (8 - (used + terminator) % 8) % 8;
    assert used + terminator + toByte == 8 * first;
    assert Zeros(terminator) + Zeros(toByte) == Zeros(8 * first - used);
  }

  /** After the data bits there are zeros up to a whole byte. */
  lemma PaddedZeros(bits: seq<bool>, codewords: seq<Byte>, i: nat)
    requires |bits| <= 8 * |codewords|
    requires CodewordBits(codewords) == bits + Padding(|bits|, |codewords|)
    requires |bits| <= i < 8 * FirstPad(|bits|, |codewords|)
    ensures i < 8 * |codewords| && !CodewordBits(codewords)[i]
  {
    hide Padding, PadBytes, Zeros, FirstPad, CodewordBits;
    var first := FirstPad(|bits|, |codewords|);
    PaddingParts(|bits|, |codewords|);
    ZeroBetween(bits, Zeros(8 * first - |bits|), PadBytes(|codewords| - first), i);
  }

  lemma PadOfBits(bits: seq<bool>, all: seq<bool>, n: nat, i: nat)
    requires |bits| <= 8 * n && all == bits + Padding(|bits|, n) && FirstPad(|bits|, n) <= i < n
    ensures |all| == 8 * n
    ensures all[8 * i..8 * i + 8] == PadByte(i - FirstPad(|bits|, n))
  {
    hide *;
    var first := FirstPad(|bits|, n);
    PaddingParts(|bits|, n);
    SliceOfPads(bits, Zeros(8 * first - |bits|), PadBytes(n - first), first, i);
    PadByteAt(n - first, i - first);
  }

  /** And then 0xEC and 0x11 by turns up to the capacity. */
  lemma PaddedBytes(bits: seq<bool>, codewords: seq<Byte>, i: nat)
    requires |bits| <= 8 * |codewords|
    requires CodewordBits(codewords) == bits + Padding(|bits|, |codewords|)
    requires FirstPad(|bits|, |codewords|) <= i < |codewords|
    ensures codewords[i] == PadByte(i - FirstPad(|bits|, |codewords|))
  {
    hide *;
    PadOfBits(bits, CodewordBits(codewords), |codewords|, i);
    ByteOfBits(codewords, i);
  }

  lemma ZeroBetween(bits: seq<bool>, zeros: seq<bool>, pads: seq<bool>, i: nat)
    requires |bits| <= i < |bits| + |zeros| && forall k :: 0 <= k < |zeros| ==> !zeros[k]
    ensures !(bits + (zeros + pads))[i]
  {
  }

  lemma SliceOfPads(bits: seq<bool>, zeros: seq<bool>, pads: seq<bool>, first: nat, i: nat)
    requires |bits| + |zeros| == 8 * first && first <= i && 8 * (i - first) + 8 <= |pads|
    ensures (bits + (zeros + pads))[8 * i..8 * i + 8] == pads[8 * (i - first)..8 * (i - first) + 8]
  {
    var lead := bits + zeros;
    assert bits + (zeros + pads) == lead + pads;
    assert (lead + pads)[8 * i..8 * i + 8] == pads[8 * i - |lead|..8 * i + 8 - |lead|];
  }

  lemma ByteOfBits(codewords: seq<Byte>, i: nat)
    requires i < |codewords|
    ensures CodewordBits(codewords)[8 * i..8 * i + 8] == codewords[i]
  {
    PackCodewordBits(codewords);
    hide CodewordBits;
    assert PackBits(CodewordBits(codewords))[i] == CodewordBits(codewords)[8 * i..8 * i + 8];
  }
}
