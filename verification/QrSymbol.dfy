/** The finished QR symbol as a function of its version, error correction level, codewords and mask. */
module QrSymbol {
  import opened GaloisField
  import opened Sets
  import opened QrTables
  import opened Zigzag
  import opened FunctionModules
  import opened QrPatterns
  import opened QrInformation

  // ----- codewords as bits

  /** The bits of the codewords, each most significant bit first. */
  function CodewordBits(data: seq<Byte>): (bits: seq<bool>)
    ensures |bits| == 8 * |data|
  {
    if data == [] then [] else CodewordBits(data[..|data| - 1]) + data[|data| - 1]
  }

  function PackBits(bits: seq<bool>): (data: seq<Byte>)
    ensures |data| == |bits| / 8
  {
    seq(|bits| / 8, k requires 0 <= k < |bits| / 8 => bits[8 * k..8 * k + 8])
  }

  lemma {:induction false} CodewordBitAt(data: seq<Byte>, i: nat)
    requires i < 8 * |data|
    ensures CodewordBits(data)[i] == data[i / 8][i % 8]
  {
    var n := |data| - 1;
    if i < 8 * n {
      CodewordBitAt(data[..n], i);
    }
  }

  lemma PackCodewordBits(data: seq<Byte>)
    ensures PackBits(CodewordBits(data)) == data
  {
    forall k | 0 <= k < |data| ensures PackBits(CodewordBits(data))[k] == data[k] {
      forall i | 0 <= i < 8 ensures CodewordBits(data)[8 * k + i] == data[k][i] {
        CodewordBitAt(data, 8 * k + i);
      }
    }
  }

  // ----- masks

  /** The eight mask patterns of section 7.8.2 of ISO/IEC 18004:2015. */
  predicate Invert(mask: nat, x: nat, y: nat)
    requires mask < 8
  {
    match mask
    case 0 => (x + y) % 2 == 0
    case 1 => y % 2 == 0
    case 2 => x % 3 == 0
    case 3 => (x + y) % 3 == 0
    case 4 => (x / 3 + y / 2) % 2 == 0
    case 5 => x * y % 2 + x * y % 3 == 0
    case 6 => (x * y % 2 + x * y % 3) % 2 == 0
    case _ => ((x + y) % 2 + x * y % 3) % 2 == 0
  }

  /** A grid with a mask applied: modules where the mask inverts change, function modules never do. */
  function Masked(g: Grid, f: Grid, mask: nat): (h: Grid)
    requires mask < 8 && |g| == |f| && Square(g, |g|) && Square(f, |f|)
    ensures |h| == |g| && Square(h, |h|)
    ensures forall p :: Inside(p, |g|) ==> At(h, p) == (At(g, p) != (Invert(mask, p.x, p.y) && !At(f, p)))
  {
    seq(|g|, y requires 0 <= y < |g| => seq(|g|, x requires 0 <= x < |g| => g[y][x] != (Invert(mask, x, y) && !f[y][x])))
  }

  lemma MaskTwice(g: Grid, f: Grid, mask: nat)
    requires mask < 8 && |g| == |f| && Square(g, |g|) && Square(f, |f|)
    ensures Masked(Masked(g, f, mask), f, mask) == g
  {
    hide Invert, Masked;
    SameGrid(Masked(Masked(g, f, mask), f, mask), g);
  }

  // ----- the symbol

  /** The position of the first occurrence of x in s, or |s| if there is none. */
  function IndexOf<T(==)>(s: seq<T>, x: T): (k: nat)
    ensures k <= |s|
    ensures k < |s| ==> s[k] == x
    ensures forall m :: 0 <= m < k ==> s[m] != x
  {
    if s == [] then 0
    else if s[0] == x then 0
    else 1 + IndexOf(s[1..], x)
  }

  /** The codeword bit placed in a module; modules past the last bit stay light. */
  function PlacedBit(places: seq<Place>, bits: seq<bool>, p: Place): bool
  {
    var k := IndexOf(places, p);
    k < |bits| && bits[k]
  }

  function Symbol(v: Version, ecl: Ecc, codewords: seq<Byte>, mask: nat): (g: Grid)
    requires mask < 8
    ensures |g| == Size(v) && Square(g, |g|)
    ensures var places, bits := AllDataPlaces(FunctionMap(v)), CodewordBits(codewords);
            forall p :: Inside(p, Size(v)) ==>
              At(g, p) == if IsFunction(v, p) then FunctionDark(v, ecl, mask, p)
                          else PlacedBit(places, bits, p) != Invert(mask, p.x, p.y)
  {
    var places, bits := AllDataPlaces(FunctionMap(v)), CodewordBits(codewords);
    seq(Size(v), y requires 0 <= y < Size(v) => seq(Size(v), x requires 0 <= x < Size(v) =>
      if IsFunction(v, Place(x, y)) then FunctionDark(v, ecl, mask, Place(x, y))
      else PlacedBit(places, bits, Place(x, y)) != Invert(mask, x, y)))
  }

  // ----- reading a symbol

  /** The first n modules of the scan, unmasked. */
  function ReadBits(g: Grid, f: Grid, mask: nat, n: nat): (bits: seq<bool>)
    requires mask < 8 && |g| == |f| && Square(g, |g|) && Square(f, |f|) && ScanSize(|f|)
    requires n <= |AllDataPlaces(f)| && forall p :: p in AllDataPlaces(f) ==> Inside(p, |f|)
    ensures |bits| == n
  {
    var places := AllDataPlaces(f);
    seq(n, k requires 0 <= k < n =>
      (assert places[k] in places; At(g, places[k]) != Invert(mask, places[k].x, places[k].y)))
  }

  lemma {:induction false} IndexOfDistinct<T>(s: seq<T>, k: nat)
    requires Distinct(s) && k < |s|
    ensures IndexOf(s, s[k]) == k
  {
  }

  /** Unmasking and reading in scan order returns the codewords bit for bit. */
  lemma ReadSymbolBits(v: Version, ecl: Ecc, codewords: seq<Byte>, mask: nat)
    requires mask < 8 && |codewords| == RawCodewords(v)
    ensures forall p :: p in AllDataPlaces(FunctionMap(v)) ==> Inside(p, Size(v))
    ensures 8 * |codewords| <= |AllDataPlaces(FunctionMap(v))|
    ensures ReadBits(Symbol(v, ecl, codewords, mask), FunctionMap(v), mask, 8 * |codewords|) == CodewordBits(codewords)
  {
    var f, g := FunctionMap(v), Symbol(v, ecl, codewords, mask);
    var places, bits := AllDataPlaces(f), CodewordBits(codewords);
    DataPlacesCount(v);
    DataPlacesOffFunctions(v);
    hide Symbol, FunctionMap, AllDataPlaces, CodewordBits, IsFunction, FunctionDark, Invert, Distinct, IndexOf, NumRawDataModules;
    forall k | 0 <= k < |bits| ensures ReadBits(g, f, mask, |bits|)[k] == bits[k] {
      var p := places[k];
      assert p in places;
      IndexOfDistinct(places, k);
      assert PlacedBit(places, bits, p) == bits[k];
      assert At(g, p) == (bits[k] != Invert(mask, p.x, p.y));
    }
  }

  lemma DataPlacesOffFunctions(v: Version)
    ensures forall p :: p in AllDataPlaces(FunctionMap(v)) <==> Inside(p, Size(v)) && !IsFunction(v, p)
  {
    var f := FunctionMap(v);
    forall y | 0 <= y < Size(v) ensures f[y][6] {
      assert At(f, Place(6, y)) == IsFunction(v, Place(6, y));
    }
    ScanCoversDataOnce(f);
  }

  // ----- reading the format information

  function ReadFormatBit(g: Grid, x: nat): bool
    requires |g| >= 21 && Square(g, |g|) && x < 5
  {
    At(g, Place(x, 8)) != GetBit(0x5412, 14 - x)
  }

  function ReadEcl(g: Grid): Ecc
    requires |g| >= 21 && Square(g, |g|)
  {
    match (ReadFormatBit(g, 0), ReadFormatBit(g, 1))
    case (false, true) => Low
    case (false, false) => Medium
    case (true, true) => Quartile
    case (true, false) => High
  }

  function ReadMask(g: Grid): (mask: nat)
    requires |g| >= 21 && Square(g, |g|)
    ensures mask < 8
  {
    (if ReadFormatBit(g, 2) then 4 else 0) + (if ReadFormatBit(g, 3) then 2 else 0) + (if ReadFormatBit(g, 4) then 1 else 0)
  }

  lemma FormatBitShown(v: Version, ecl: Ecc, codewords: seq<Byte>, mask: nat, x: nat)
    requires mask < 8 && x < 5
    ensures ReadFormatBit(Symbol(v, ecl, codewords, mask), x) == PlainBit(FormatBits(ecl, mask), 14 - x)
  {
    hide GetBit, FormatBits, Symbol;
    var p := Place(x, 8);
    assert IsFunction(v, p) && InFormat(Size(v), p);
    assert FormatDark(Size(v), FormatBits(ecl, mask), p) == GetBit(FormatBits(ecl, mask), 14 - x);
  }

  /** The symbol names its own error correction level and mask. */
  lemma ReadFormat(v: Version, ecl: Ecc, codewords: seq<Byte>, mask: nat)
    requires mask < 8
    ensures ReadEcl(Symbol(v, ecl, codewords, mask)) == ecl
    ensures ReadMask(Symbol(v, ecl, codewords, mask)) == mask
  {
    hide Symbol, ReadFormatBit, FormatBits, PlainBit;
    FormatNames(ecl, mask);
    FormatBitShown(v, ecl, codewords, mask, 0);
    FormatBitShown(v, ecl, codewords, mask, 1);
    FormatBitShown(v, ecl, codewords, mask, 2);
    FormatBitShown(v, ecl, codewords, mask, 3);
    FormatBitShown(v, ecl, codewords, mask, 4);
  }
}
