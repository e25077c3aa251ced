/** From a text to a finished QR symbol and back: every symbol that is made can be read from its modules alone. */
module QrRoundTrip {
  import opened Wrappers
  import opened GaloisField
  import opened QrTables
  import opened Interleave
  import opened Zigzag
  import opened FunctionModules
  import opened QrSymbol
  import opened QrDrawing
  import opened QrSegments
  import opened QrEncoding
  import opened QrDecoding

  datatype TextError = TextTooLong

  method EncodeText(text: string, ecl: Ecc, penalty: Grid -> int) returns (r: Result<QrCode, TextError>)
    requires IsText(text)
    requires forall g :: 0 <= penalty(g) <= 2568888
    ensures r.Ok? <==> exists v: Version :: Fits(SegmentsOf(text), v, ecl)
    ensures r.Ok? ==>
              var qr := r.value;
              && fresh(qr) && qr.Valid() && 0 <= qr.mask <= 7
              && ReadSymbol(qr.modules) == Some(text)
              && (forall w: Version :: w < qr.version ==> !Fits(SegmentsOf(text), w, ecl))
              && Boosted(SegmentsOf(text), qr.version, ecl, qr.ecl)
              && exists codewords :: BestMask(qr.version, qr.ecl, codewords, penalty, qr.mask, 8)
                                     && qr.modules == Symbol(qr.version, qr.ecl, codewords, qr.mask)
  {
    var segs := MakeSegments(text);
    LongTextFitsNowhere(text);
    hide Symbol, Interleaved, NumDataCodewords, TotalBits, SegmentBits, SegmentsOf, ReadSymbol, BestMask, Boosted, Padding, Fits;
    if segs.Err? {
      return Err(TextTooLong);
    }
    var encoding := EncodeSegments(segs.value, ecl, 1, 40, -1, true);
    if encoding.Err? {
      return Err(TextTooLong);
    }
    var e := encoding.value;
    CodewordsLength(text, e);
    var qr := Create(e.version, e.ecl, e.codewords, -1, penalty);
    SymbolReads(text, e, qr.value.mask);
    r := Ok(qr.value);
  }

  lemma LongTextFitsNowhere(text: string)
    ensures |text| > INT_MAX ==> forall v: Version, ecl :: !Fits(SegmentsOf(text), v, ecl)
  {
    if |text| > INT_MAX {
      forall v: Version ensures TotalBits(SegmentsOf(text), v) == -1 {
        CountTooWide(SegmentsOf(text)[0], v);
        assert SegmentsOf(text) == [SegmentsOf(text)[0]];
      }
    }
  }

  lemma CountTooWide(seg: Segment, v: Version)
    requires seg.numChars > INT_MAX
    ensures TotalBits([seg], v) == -1
  {
    assert Pow2(4) == 16;
    assert Pow2(8) == 16 * Pow2(4);
    assert Pow2(12) == 16 * Pow2(8);
    assert Pow2(16) == 16 * Pow2(12);
  }

  /** The codewords of an encoding are a text's packed bits. */
  ghost predicate Carries(text: string, e: Encoding)
  {
    var bits, n := SegmentBits(SegmentsOf(text), e.version), NumDataCodewords(e.version, e.ecl);
    && IsText(text) && Fits(SegmentsOf(text), e.version, e.ecl)
    && |bits| <= 8 * n
    && CodewordBits(e.codewords) == bits + Padding(|bits|, n)
  }

  lemma CodewordsLength(text: string, e: Encoding)
    requires Carries(text, e)
    ensures |e.codewords| == NumDataCodewords(e.version, e.ecl)
  {
  }

  // ----- the reader

  /** Read a symbol from its modules alone: its size gives the version, its format the level and the mask. */
  function ReadSymbol(g: Grid): Option<string>
  {
    if |g| < 21 || |g| > 177 || |g| % 4 != 1 || !Square(g, |g|) then None
    else
      var v: Version := (|g| - 17) / 4;
      ReadCodewords(ReadAllCodewords(g, v), v, ReadEcl(g))
  }

  function ReadAllCodewords(g: Grid, v: Version): (c: seq<Byte>)
    requires |g| == Size(v) && Square(g, |g|)
    ensures |c| == RawCodewords(v)
  {
    DataPlacesCount(v);
    DataPlacesOffFunctions(v);
    PackBits(ReadBits(g, FunctionMap(v), ReadMask(g), 8 * RawCodewords(v)))
  }

  function ReadCodewords(codewords: seq<Byte>, v: Version, ecl: Ecc): Option<string>
    requires |codewords| == RawCodewords(v)
  {
    var s := ShapeOf(v, ecl);
    DecodeText(CodewordBits(ReadData(codewords, s, s.blocks)), v)
  }

  /** The reader recovers the codewords that were drawn, from the modules alone. */
  lemma DrawnCodewordsRead(v: Version, ecl: Ecc, all: seq<Byte>, mask: nat)
    requires |all| == RawCodewords(v) && mask < 8
    ensures ReadAllCodewords(Symbol(v, ecl, all, mask), v) == all
  {
    hide Symbol, RawCodewords, FunctionMap, AllDataPlaces, ReadBits, PackBits, CodewordBits, ReadEcl, ReadMask, NumRawDataModules;
    ReadFormat(v, ecl, all, mask);
    ReadSymbolBits(v, ecl, all, mask);
    PackCodewordBits(all);
  }

  lemma SomeDataCodewords(v: Version, ecl: Ecc)
    ensures NumDataCodewords(v, ecl) >= 1
  {
    TablesFit(v, ecl);
    hide EccLen, NumBlocks, RawCodewords;
    var a, b := EccLen(v, ecl), NumBlocks(v, ecl);
    assert (a + 1) * b == a * b + b;
  }

  lemma CodewordsRead(text: string, e: Encoding)
    requires Carries(text, e) && |e.codewords| == NumDataCodewords(e.version, e.ecl)
    ensures ReadCodewords(Interleaved(e.codewords, ShapeOf(e.version, e.ecl)), e.version, e.ecl) == Some(text)
  {
    SomeDataCodewords(e.version, e.ecl);
    hide Interleaved, NumDataCodewords, RawCodewords, ShapeOf, SegmentBits, Padding;
    hide CodewordBits, ReadData, DecodeText, TotalBits, SegmentsOf;
    DeinterleaveData(e.codewords, ShapeOf(e.version, e.ecl));
    PackedTextRoundTrip(text, e.version, NumDataCodewords(e.version, e.ecl));
  }

  lemma SizeGivesVersion(g: Grid, v: Version)
    requires |g| == Size(v) && Square(g, |g|)
    ensures ReadSymbol(g) == ReadCodewords(ReadAllCodewords(g, v), v, ReadEcl(g))
  {
    hide ReadCodewords, ReadAllCodewords, ReadEcl, Square, RawCodewords;
    assert (|g| - 17) / 4 == v;
  }

  lemma SymbolReads(text: string, e: Encoding, mask: nat)
    requires Carries(text, e) && |e.codewords| == NumDataCodewords(e.version, e.ecl) && mask < 8
    ensures ReadSymbol(Symbol(e.version, e.ecl, Interleaved(e.codewords, ShapeOf(e.version, e.ecl)), mask)) == Some(text)
  {
    var v, ecl := e.version, e.ecl;
    var all := Interleaved(e.codewords, ShapeOf(v, ecl));
    hide *;
    SizeGivesVersion(Symbol(v, ecl, all, mask), v);
    ReadFormat(v, ecl, all, mask);
    DrawnCodewordsRead(v, ecl, all, mask);
    CodewordsRead(text, e);
  }
}
