/**
 The module grid of a QR code while it is being built: function patterns are drawn first, then the codewords
 are placed along the zigzag, then masks are applied.
 */
module QrDrawing {
  import opened Integers
  import opened GaloisField
  import opened Sets
  import opened QrTables
  import opened Zigzag
  import opened FunctionModules
  import opened QrPatterns
  import opened QrSymbol
  import opened MaskPatterns
  import opened Interleave
  import opened Wrappers

  datatype QrError = VersionOutOfRange | MaskOutOfRange | WrongData

  method ComputeFormatBits(ecl: Ecc, msk: nat) returns (bits: bv32)
    requires msk < 8
    ensures bits == FormatBits(ecl, msk)
  {
    hide FormatRemainder;
    var data := (FormatNumber(ecl) << 3) | (msk as bv32);
    var rem := FormatDivision(data, 10);
    bits := ((data << 10) | rem) ^ 0x5412;
  }

  method FormatDivision(data: bv32, steps: nat) returns (rem: bv32)
    ensures rem == FormatRemainder(data, steps)
  {
    hide FormatDivide;
    rem := data;
    for i := 0 to steps
      invariant rem == FormatRemainder(data, i)
    {
      rem := FormatDivide(rem);
    }
  }

  method ComputeVersionBits(version: bv32) returns (bits: bv32)
    ensures bits == WithRemainder(version)
  {
    hide VersionRemainder, Joined;
    var rem := VersionDivision(version, 12);
    bits := Joined(version, rem);
  }

  method VersionDivision(version: bv32, steps: nat) returns (rem: bv32)
    ensures rem == VersionRemainder(version, steps)
  {
    hide VersionDivide;
    rem := version;
    for i := 0 to steps
      invariant rem == VersionRemainder(version, i)
    {
      rem := VersionDivide(rem);
    }
  }

  class QrCode {
    const version: Version
    const ecl: Ecc
    const size: nat
    var mask: int
    var modules: Grid
    var isFunction: Grid

    ghost predicate Valid()
      reads `modules, `isFunction
    {
      size == Size(version) && |modules| == |isFunction| == size && Square(modules, size) && Square(isFunction, size)
    }

    constructor (v: Version, e: Ecc)
      ensures Valid() && version == v && ecl == e
      ensures forall p :: Inside(p, size) ==> !At(modules, p) && !At(isFunction, p)
    {
      version := v;
      ecl := e;
      size := v * 4 + 17;
      mask := -1;
      modules := seq(v * 4 + 17, _ => seq(v * 4 + 17, _ => false));
      isFunction := seq(v * 4 + 17, _ => seq(v * 4 + 17, _ => false));
    }

    method SetFunctionModule(x: int, y: int, isDark: bool)
      requires Valid() && Inside(Place(x, y), size)
      modifies `modules, `isFunction
      ensures Valid()
      ensures modules == Put(old(modules), Place(x, y), isDark)
      ensures isFunction == Put(old(isFunction), Place(x, y), true)
    {
      modules := Put(modules, Place(x, y), isDark);
      isFunction := Put(isFunction, Place(x, y), true);
    }

    // ----- function patterns

    method DrawTimingPatterns()
      requires Valid()
      modifies `modules, `isFunction
      ensures Valid()
      ensures forall p :: Inside(p, size) ==> At(isFunction, p) == (InTiming(p) || At(old(isFunction), p))
      ensures forall p :: Inside(p, size) && !InTiming(p) ==> At(modules, p) == At(old(modules), p)
      ensures forall p :: Inside(p, size) && InTiming(p) ==>
                At(modules, p) == if p.y == 6 then p.x % 2 == 0 else p.y % 2 == 0
    {
      assert size >= 21;
      hide Put, Size, At, Square;
      for i := 0 to size
        invariant Valid()
        invariant forall p :: Inside(p, size) ==>
                    At(isFunction, p) == ((p.x == 6 && p.y < i) || (p.y == 6 && p.x < i) || At(old(isFunction), p))
        invariant forall p :: Inside(p, size) && !(p.x == 6 && p.y < i) && !(p.y == 6 && p.x < i) ==>
                    At(modules, p) == At(old(modules), p)
        invariant forall p :: Inside(p, size) && p.y == 6 && p.x < i ==> At(modules, p) == (p.x % 2 == 0)
        invariant forall p :: Inside(p, size) && p.x == 6 && p.y < i ==> At(modules, p) == (p.y % 2 == 0)
      {
        SetFunctionModule(6, i, i % 2 == 0);
        SetFunctionModule(i, 6, i % 2 == 0);
      }
    }

    method DrawFinderPattern(x: int, y: int)
      requires Valid() && Inside(Place(x, y), size)
      modifies `modules, `isFunction
      ensures Valid()
      ensures forall p :: Inside(p, size) ==> At(isFunction, p) == (NearFinder(p, x, y) || At(old(isFunction), p))
      ensures forall p :: Inside(p, size) ==>
                At(modules, p) == if NearFinder(p, x, y) then FinderRing(p, x, y) else At(old(modules), p)
    {
      hide Put, Size, At, Square;
      for dy := -4 to 5
        invariant Valid()
        invariant forall p :: Inside(p, size) ==>
                    At(isFunction, p) == ((NearFinder(p, x, y) && p.y - y < dy) || At(old(isFunction), p))
        invariant forall p :: Inside(p, size) ==>
                    At(modules, p) == if NearFinder(p, x, y) && p.y - y < dy then FinderRing(p, x, y) else At(old(modules), p)
      {
        DrawFinderPatternRow(x, y, dy);
      }
    }

    method DrawFinderPatternRow(x: int, y: int, dy: int)
      requires Valid() && Inside(Place(x, y), size)
      requires -4 <= dy <= 4
      modifies `modules, `isFunction
      ensures Valid()
      ensures forall p :: Inside(p, size) ==>
                At(isFunction, p) == ((Distance(p, x, y) <= 4 && p.y - y == dy) || At(old(isFunction), p))
      ensures forall p :: Inside(p, size) ==>
                At(modules, p) == if Distance(p, x, y) <= 4 && p.y - y == dy then Distance(p, x, y) != 2 && Distance(p, x, y) != 4
                                   else At(old(modules), p)
    {
      hide Put, Size, At, Square;
      for dx := -4 to 5
        invariant Valid()
        invariant forall p :: Inside(p, size) ==>
                    At(isFunction, p) == ((p.y - y == dy && -4 <= p.x - x < dx) || At(old(isFunction), p))
        invariant forall p :: Inside(p, size) ==>
                    At(modules, p) == if p.y - y == dy && -4 <= p.x - x < dx then Distance(p, x, y) != 2 && Distance(p, x, y) != 4
                                       else At(old(modules), p)
      {
        var dist := if Abs(dx) >= Abs(dy) then Abs(dx) else Abs(dy);
        var xx, yy := x + dx, y + dy;
        if 0 <= xx < size && 0 <= yy < size {
          SetFunctionModule(xx, yy, dist != 2 && dist != 4);
        }
      }
    }

    method DrawAlignmentPattern(x: int, y: int)
      requires Valid() && 2 <= x < size - 2 && 2 <= y < size - 2
      modifies `modules, `isFunction
      ensures Valid()
      ensures forall p :: Inside(p, size) ==> At(isFunction, p) == (Distance(p, x, y) <= 2 || At(old(isFunction), p))
      ensures forall p :: Inside(p, size) ==>
                At(modules, p) == if Distance(p, x, y) <= 2 then Distance(p, x, y) != 1 else At(old(modules), p)
    {
      hide Put, Size, At, Square;
      for dy := -2 to 3
        invariant Valid()
        invariant forall p :: Inside(p, size) ==>
                    At(isFunction, p) == ((Distance(p, x, y) <= 2 && p.y - y < dy) || At(old(isFunction), p))
        invariant forall p :: Inside(p, size) ==>
                    At(modules, p) == if Distance(p, x, y) <= 2 && p.y - y < dy then Distance(p, x, y) != 1
                                       else At(old(modules), p)
      {
        DrawAlignmentPatternRow(x, y, dy);
      }
    }

    method DrawAlignmentPatternRow(x: int, y: int, dy: int)
      requires Valid() && 2 <= x < size - 2 && 2 <= y < size - 2
      requires -2 <= dy <= 2
      modifies `modules, `isFunction
      ensures Valid()
      ensures forall p :: Inside(p, size) ==>
                At(isFunction, p) == ((Distance(p, x, y) <= 2 && p.y - y == dy) || At(old(isFunction), p))
      ensures forall p :: Inside(p, size) ==>
                At(modules, p) == if Distance(p, x, y) <= 2 && p.y - y == dy then Distance(p, x, y) != 1 else At(old(modules), p)
    {
      hide Put, Size, At, Square;
      for dx := -2 to 3
        invariant Valid()
        invariant forall p :: Inside(p, size) ==>
                    At(isFunction, p) == ((p.y - y == dy && -2 <= p.x - x < dx) || At(old(isFunction), p))
        invariant forall p :: Inside(p, size) ==>
                    At(modules, p) == if p.y - y == dy && -2 <= p.x - x < dx then Distance(p, x, y) != 1 else At(old(modules), p)
      {
        var dist := if Abs(dx) >= Abs(dy) then Abs(dx) else Abs(dy);
        SetFunctionModule(x + dx, y + dy, dist != 1);
      }
    }

    method DrawAlignmentPatterns()
      requires Valid()
      modifies `modules, `isFunction
      ensures Valid()
      ensures var pos := AlignPositions(version);
              forall p :: Inside(p, size) ==> At(isFunction, p) == (InAlign(pos, p, |pos|, 0) || At(old(isFunction), p))
      ensures var pos := AlignPositions(version);
              forall p :: Inside(p, size) ==>
                At(modules, p) == if InAlign(pos, p, |pos|, 0) then !AlignLight(pos, p, |pos|, 0) else At(old(modules), p)
    {
      var pos := ComputeAlignPositions(version);
      var numAlign := |pos|;
      AlignPositionsUsable(version);
      hide Size, AlignPositions, Distance, InAlign, AlignLight, FinderCorner, NumAlign, Put;
      assert forall p :: Inside(p, size) ==> !InAlign(pos, p, 0, 0) by { AlignNone(pos); }
      for i := 0 to numAlign
        invariant Valid()
        invariant forall p :: Inside(p, size) ==> At(isFunction, p) == (InAlign(pos, p, i, 0) || At(old(isFunction), p))
        invariant forall p :: Inside(p, size) ==>
                    At(modules, p) == if InAlign(pos, p, i, 0) then !AlignLight(pos, p, i, 0) else At(old(modules), p)
      {
        for j := 0 to numAlign
          invariant Valid()
          invariant forall p :: Inside(p, size) ==> At(isFunction, p) == (InAlign(pos, p, i, j) || At(old(isFunction), p))
          invariant forall p :: Inside(p, size) ==>
                      At(modules, p) == if InAlign(pos, p, i, j) then !AlignLight(pos, p, i, j) else At(old(modules), p)
        {
          if !FinderCorner(i, j, numAlign) {
            DrawAlignmentPattern(pos[i], pos[j]);
          }
          forall p { AlignNext(pos, p, i, j); }
        }
        forall p { AlignNextRow(pos, p, i); }
      }
    }

    // ----- format and version information

    method DrawFormatBits(msk: nat)
      requires Valid() && msk < 8
      modifies `modules, `isFunction
      ensures Valid()
      ensures forall p :: Inside(p, size) ==> At(isFunction, p) == (InFormat(size, p) || At(old(isFunction), p))
      ensures forall p :: Inside(p, size) ==>
                At(modules, p) == if InFormat(size, p) then FormatDark(size, FormatBits(ecl, msk), p) else At(old(modules), p)
    {
      hide FormatBits, FormatDark, GetBit;
      var bits := ComputeFormatBits(ecl, msk);
      DrawFormatFirstCopy(bits);
      DrawFormatSecondCopy(bits);
    }

    method DrawFormatFirstCopy(bits: bv32)
      requires Valid()
      modifies `modules, `isFunction
      ensures Valid()
      ensures forall p :: Inside(p, size) ==> At(isFunction, p) == (InFormatFirst(p) || At(old(isFunction), p))
      ensures forall p :: Inside(p, size) ==>
                At(modules, p) == if InFormatFirst(p) then FormatDark(size, bits, p) else At(old(modules), p)
    {
      assert size >= 21;
      hide Put, Size, GetBit, At, Square;
      DrawFormatFirstColumn(bits);
      label rest:
      for i := 9 to 15
        invariant Valid()
        invariant forall p :: Inside(p, size) ==>
                    At(isFunction, p) == ((p.y == 8 && 14 - i < p.x <= 5) || At(old@rest(isFunction), p))
        invariant forall p :: Inside(p, size) ==>
                    At(modules, p) == if p.y == 8 && 14 - i < p.x <= 5 then GetBit(bits, 14 - p.x) else At(old@rest(modules), p)
      {
        SetFunctionModule(14 - i, 8, GetBit(bits, i));
      }
    }

    /** Bits 0 to 8 of the first copy: down column 8, skipping the timing line, and round the corner. */
    method DrawFormatFirstColumn(bits: bv32)
      requires Valid()
      modifies `modules, `isFunction
      ensures Valid()
      ensures forall p :: Inside(p, size) ==>
                At(isFunction, p) == ((InFormatFirst(p) && p.x >= 7) || At(old(isFunction), p))
      ensures forall p :: Inside(p, size) ==>
                At(modules, p) == if InFormatFirst(p) && p.x >= 7 then FormatDark(size, bits, p) else At(old(modules), p)
    {
      assert size >= 21;
      hide Put, Size, GetBit, At, Square;
      for i := 0 to 6
        invariant Valid()
        invariant forall p :: Inside(p, size) ==> At(isFunction, p) == ((p.x == 8 && p.y < i) || At(old(isFunction), p))
        invariant forall p :: Inside(p, size) ==>
                    At(modules, p) == if p.x == 8 && p.y < i then GetBit(bits, p.y) else At(old(modules), p)
      {
        SetFunctionModule(8, i, GetBit(bits, i));
      }
      SetFunctionModule(8, 7, GetBit(bits, 6));
      SetFunctionModule(8, 8, GetBit(bits, 7));
      SetFunctionModule(7, 8, GetBit(bits, 8));
    }

    method DrawFormatSecondCopy(bits: bv32)
      requires Valid()
      modifies `modules, `isFunction
      ensures Valid()
      ensures forall p :: Inside(p, size) ==> At(isFunction, p) == (InFormatSecond(size, p) || At(old(isFunction), p))
      ensures forall p :: Inside(p, size) ==>
                At(modules, p) == if InFormatSecond(size, p) then FormatDark(size, bits, p) else At(old(modules), p)
    {
      assert size >= 21;
      hide Put, Size, GetBit, At, Square;
      DrawFormatSecondRow(bits);
      label rest:
      for i := 8 to 15
        invariant Valid()
        invariant forall p :: Inside(p, size) ==>
                    At(isFunction, p) == ((p.x == 8 && size - 7 <= p.y < size - 15 + i) || At(old@rest(isFunction), p))
        invariant forall p :: Inside(p, size) ==>
                    At(modules, p) == if p.x == 8 && size - 7 <= p.y < size - 15 + i then GetBit(bits, p.y - (size - 15))
                                      else At(old@rest(modules), p)
      {
        SetFunctionModule(8, size - 15 + i, GetBit(bits, i));
      }
      SetFunctionModule(8, size - 8, true);
    }

    /** Bits 0 to 7 of the second copy, along row 8. */
    method DrawFormatSecondRow(bits: bv32)
      requires Valid()
      modifies `modules, `isFunction
      ensures Valid()
      ensures forall p :: Inside(p, size) ==> At(isFunction, p) == ((p.y == 8 && size - 8 <= p.x) || At(old(isFunction), p))
      ensures forall p :: Inside(p, size) ==>
                At(modules, p) == if p.y == 8 && size - 8 <= p.x then FormatDark(size, bits, p) else At(old(modules), p)
    {
      assert size >= 21;
      hide Put, Size, GetBit, At, Square;
      for i := 0 to 8
        invariant Valid()
        invariant forall p :: Inside(p, size) ==>
                    At(isFunction, p) == ((p.y == 8 && size - i <= p.x) || At(old(isFunction), p))
        invariant forall p :: Inside(p, size) ==>
                    At(modules, p) == if p.y == 8 && size - i <= p.x then GetBit(bits, size - 1 - p.x) else At(old(modules), p)
      {
        SetFunctionModule(size - 1 - i, 8, GetBit(bits, i));
      }
    }

    method DrawVersion()
      requires Valid()
      modifies `modules, `isFunction
      ensures Valid()
      ensures forall p :: Inside(p, size) ==> At(isFunction, p) == (InVersion(version, p) || At(old(isFunction), p))
      ensures forall p :: Inside(p, size) ==>
                At(modules, p) == if InVersion(version, p) then VersionDark(version, p) else At(old(modules), p)
    {
      if version < 7 {
        return;
      }
      hide WithRemainder, GetBit;
      var bits := ComputeVersionBits(version as bv32);
      DrawVersionCopies(bits);
    }

    method DrawVersionCopies(bits: bv32)
      requires Valid() && version >= 7
      modifies `modules, `isFunction
      ensures Valid()
      ensures forall p :: Inside(p, size) ==> At(isFunction, p) == (InVersion(version, p) || At(old(isFunction), p))
      ensures forall p :: Inside(p, size) ==>
                At(modules, p) == if !InVersion(version, p) then At(old(modules), p)
                                  else if p.x >= size - 11 then GetBit(bits, 3 * p.y + p.x - (size - 11))
                                  else GetBit(bits, 3 * p.x + p.y - (size - 11))
    {
      assert size >= 45;
      hide Put, GetBit, At, Square;
      for i := 0 to 18
        invariant Valid()
        invariant forall p :: Inside(p, size) ==>
                    At(isFunction, p) == (VersionStep(size, p, i) || At(old(isFunction), p))
        invariant forall p :: Inside(p, size) ==>
                    At(modules, p) == if VersionStep(size, p, i) then GetBit(bits, VersionIndex(size, p)) else At(old(modules), p)
      {
        var bit := GetBit(bits, i);
        var a := size - 11 + i % 3;
        var b := i / 3;
        SetFunctionModule(a, b, bit);
        SetFunctionModule(b, a, bit);
        hide Size;
        forall p { VersionNext(size, p, i); }
        hide VersionStep, VersionIndex;
      }
    }

    // ----- all function patterns

    /** The finders come after the timing patterns, whose ends they cover. */
    method DrawFinderPatterns()
      requires Valid()
      modifies `modules, `isFunction
      ensures Valid()
      ensures forall p :: Inside(p, size) ==> At(isFunction, p) == (InFinders(size, p) || At(old(isFunction), p))
      ensures forall p :: Inside(p, size) ==>
                At(modules, p) == if InFinders(size, p) then FinderDark(size, p) else At(old(modules), p)
    {
      assert size >= 21;
      hide NearFinder, FinderRing, Size, At, Square;
      DrawFinderPattern(3, 3);
      DrawFinderPattern(size - 4, 3);
      DrawFinderPattern(3, size - 4);
    }

    method DrawPatterns()
      requires Valid()
      requires forall p :: Inside(p, size) ==> !At(modules, p) && !At(isFunction, p)
      modifies `modules, `isFunction
      ensures Valid()
      ensures forall p :: Inside(p, size) ==> At(isFunction, p) == InPatterns(version, p)
      ensures forall p :: Inside(p, size) ==> At(modules, p) == (InPatterns(version, p) && PatternDark(version, p))
    {
      hide InTiming, InFinders, FinderDark, InAlign, AlignLight, Size, AlignPositions, NumAlign, At, Square;
      DrawTimingPatterns();
      DrawFinderPatterns();
      DrawAlignmentPatterns();
    }

    method DrawFunctionPatterns()
      requires Valid()
      requires forall p :: Inside(p, size) ==> !At(modules, p) && !At(isFunction, p)
      modifies `modules, `isFunction
      ensures Valid()
      ensures isFunction == FunctionMap(version)
      ensures forall p :: Inside(p, size) ==>
                At(modules, p) == (IsFunction(version, p) && FunctionDark(version, ecl, 0, p))
    {
      forall p ensures !(InFormat(size, p) && InVersion(version, p)) {
        FormatOffVersion(version, p);
      }
      assert forall p :: IsFunction(version, p) <==> InPatterns(version, p) || InFormat(size, p) || InVersion(version, p);
      hide InPatterns, InFormat, InVersion, PatternDark, FormatDark, FormatBits, VersionDark;
      hide Size, FunctionMap, IsFunction, At, Square;
      DrawPatterns();
      DrawFormatBits(0);  // any mask will do: DoMasking redraws these modules
      DrawVersion();
      SameGrid(isFunction, FunctionMap(version));
    }

    // ----- codewords

    method DrawCodewords(data: seq<Byte>) returns (ok: bool)
      requires Valid() && isFunction == FunctionMap(version)
      modifies `modules
      ensures Valid()
      ensures ok <==> |data| == RawCodewords(version)
      ensures !ok ==> modules == old(modules)
      ensures ok ==> Placed(old(modules), modules, AllDataPlaces(isFunction), CodewordBits(data))
    {
      if |data| != RawCodewords(version) {
        return false;
      }
      ok := true;
      DrawZigzag(data);
    }

    /** The column pairs from the right edge on, each read in the opposite direction of the one before. */
    method DrawZigzag(data: seq<Byte>)
      requires Valid() && ScanSize(size)
      modifies `modules
      ensures Valid()
      ensures Placed(old(modules), modules, AllDataPlaces(isFunction), CodewordBits(data))
    {
      hide Size, DataPlaces, CodewordBits, Square, At, Placed, RightColumn;
      PlacedNothing(modules, CodewordBits(data));
      DataPlacesStart(isFunction);
      ghost var c := 0;
      var i := 0;
      var right := size - 1;
      while right >= 1
        invariant Valid()
        invariant 0 <= 2 * c <= size - 1
        invariant right == if size - 1 - 2 * c >= 6 then size - 1 - 2 * c else size - 2 - 2 * c
        invariant i == Shorter(|DataPlaces(isFunction, c, 0)|, 8 * |data|)
        invariant Placed(old(modules), modules, DataPlaces(isFunction, c, 0), CodewordBits(data))
        decreases right
      {
        if right == 6 {
          right := 5;
        }
        RightColumnIs(size, c, right);
        i := DrawColumnPair(data, right, c, i, old(modules));
        c := c + 1;
        right := right - 2;
      }
    }

    method DrawColumnPair(data: seq<Byte>, right: nat, ghost c: nat, i0: nat, ghost before: Grid) returns (i: nat)
      requires Valid() && ScanSize(size) && 2 * c < size - 1 && right == RightColumn(size, c)
      requires i0 == Shorter(|DataPlaces(isFunction, c, 0)|, 8 * |data|)
      requires Placed(before, modules, DataPlaces(isFunction, c, 0), CodewordBits(data))
      modifies `modules
      ensures Valid()
      ensures i == Shorter(|DataPlaces(isFunction, c + 1, 0)|, 8 * |data|)
      ensures Placed(before, modules, DataPlaces(isFunction, c + 1, 0), CodewordBits(data))
    {
      hide Size, DataPlaces, CodewordBits, Square, At, Placed, RightColumn;
      i := i0;
      for vert := 0 to size
        invariant Valid()
        invariant i == Shorter(|DataPlaces(isFunction, c, vert)|, 8 * |data|)
        invariant Placed(before, modules, DataPlaces(isFunction, c, vert), CodewordBits(data))
      {
        i := DrawTwo(data, right, c, vert, i, before);
      }
      DataPlacesNextPair(isFunction, c);
    }

    /** The two modules that the scan visits at vertical count vert. */
    method DrawTwo(data: seq<Byte>, right: nat, ghost c: nat, vert: nat, i0: nat, ghost before: Grid) returns (i: nat)
      requires Valid() && ScanSize(size) && 2 * c < size - 1 && vert < size && right == RightColumn(size, c)
      requires i0 == Shorter(|DataPlaces(isFunction, c, vert)|, 8 * |data|)
      requires Placed(before, modules, DataPlaces(isFunction, c, vert), CodewordBits(data))
      modifies `modules
      ensures Valid()
      ensures i == Shorter(|DataPlaces(isFunction, c, vert + 1)|, 8 * |data|)
      ensures Placed(before, modules, DataPlaces(isFunction, c, vert + 1), CodewordBits(data))
    {
      ghost var done := DataPlaces(isFunction, c, vert);
      i := i0;
      hide Size, DataPlaces, CodewordBits, Square, At, Placed, RightColumn, VisitUpTo, Shorter;
      DataPlacesNext(isFunction, c, vert);
      for j := 0 to 2
        invariant Valid()
        invariant done == VisitUpTo(isFunction, c, vert, j)
        invariant i == Shorter(|done|, 8 * |data|)
        invariant Placed(before, modules, done, CodewordBits(data))
      {
        var x := right - j;
        var upward := (right + 1) / 2 % 2 == 0;
        var y := if upward then size - 1 - vert else vert;
        PlaceNotVisited(isFunction, c, vert, j, Place(x, y));
        i := DrawBit(data, x, y, i, before, done);
        done := VisitUpTo(isFunction, c, vert, j + 1);
      }
    }

    method DrawBit(data: seq<Byte>, x: nat, y: nat, i0: nat, ghost before: Grid, ghost done: seq<Place>) returns (i: nat)
      requires Valid() && Inside(Place(x, y), size) && Place(x, y) !in done
      requires i0 == Shorter(|done|, 8 * |data|) && Placed(before, modules, done, CodewordBits(data))
      modifies `modules
      ensures Valid()
      ensures var all := done + (if At(isFunction, Place(x, y)) then [] else [Place(x, y)]);
              i == Shorter(|all|, 8 * |data|) && Placed(before, modules, all, CodewordBits(data))
    {
      hide CodewordBits, Size, Placed;
      i := i0;
      if !isFunction[y][x] && i < |data| * 8 {
        CodewordBitAt(data, i);
        PlacedOneMore(before, modules, done, CodewordBits(data), Place(x, y));
        modules := Put(modules, Place(x, y), data[i / 8][i % 8]);
        i := i + 1;
      } else if !isFunction[y][x] {
        PlacedNoMore(before, modules, done, CodewordBits(data), Place(x, y));
      } else {
        assert done + [] == done;
      }
    }

    // ----- masks

    method ApplyMask(msk: int) returns (ok: bool)
      requires Valid()
      modifies `modules
      ensures Valid()
      ensures ok <==> 0 <= msk <= 7
      ensures modules == if ok then Masked(old(modules), isFunction, msk) else old(modules)
      ensures ok ==> forall p :: Inside(p, size) ==>
                At(modules, p) == (At(old(modules), p) != (Pictured(msk, p.x, p.y) && !At(isFunction, p)))
    {
      if msk < 0 || msk > 7 {
        return false;
      }
      ok := true;
      hide Invert;
      for y := 0 to size
        invariant Valid()
        invariant forall b :: 0 <= b < y ==> modules[b] == Masked(old(modules), isFunction, msk)[b]
        invariant forall b :: y <= b < size ==> modules[b] == old(modules)[b]
      {
        ApplyMaskRow(msk, y);
      }
      assert modules == Masked(old(modules), isFunction, msk);
      hide Masked, Pictured;
      forall p | Inside(p, size) ensures Invert(msk, p.x, p.y) == Pictured(msk, p.x, p.y) {
        MaskPicture(msk, p.x, p.y);
      }
    }

    method ApplyMaskRow(msk: nat, y: nat)
      requires Valid() && msk <= 7 && y < size
      modifies `modules
      ensures Valid()
      ensures modules == old(modules)[y := Masked(old(modules), isFunction, msk)[y]]
    {
      hide Invert;
      for x := 0 to size
        invariant Valid()
        invariant forall b :: 0 <= b < size && b != y ==> modules[b] == old(modules)[b]
        invariant forall a :: 0 <= a < x ==> modules[y][a] == Masked(old(modules), isFunction, msk)[y][a]
        invariant forall a :: x <= a < size ==> modules[y][a] == old(modules)[y][a]
      {
        var invert := Invert(msk, x, y);
        modules := modules[y := modules[y][x := modules[y][x] != (invert && !isFunction[y][x])]];
      }
      assert modules[y] == Masked(old(modules), isFunction, msk)[y];
    }

    /** The data modules hold the codeword bits unmasked; the function modules are complete but for the format. */
    ghost predicate Unmasked(codewords: seq<Byte>)
      requires Valid()
      reads `modules, `isFunction
    {
      && isFunction == FunctionMap(version)
      && (forall p :: Inside(p, size) && IsFunction(version, p) && !InFormat(size, p) ==>
            At(modules, p) == FunctionDark(version, ecl, 0, p))
      && (forall p :: Inside(p, size) && !IsFunction(version, p) ==>
            At(modules, p) == PlacedBit(AllDataPlaces(isFunction), CodewordBits(codewords), p))
    }

    /** Draw the trial, or the final symbol, for one mask. */
    method DrawMasked(msk: nat, ghost codewords: seq<Byte>)
      requires Valid() && msk <= 7 && Unmasked(codewords)
      modifies `modules, `isFunction
      ensures Valid() && isFunction == old(isFunction) && mask == old(mask)
      ensures modules == Symbol(version, ecl, codewords, msk)
    {
      hide Invert, Masked, FunctionMap, AllDataPlaces, CodewordBits, Symbol, Size, At, Square, PlacedBit;
      FunctionDarkOffFormat(version, ecl, msk);
      var ok := ApplyMask(msk);
      DrawFormatBits(msk);
      assert forall p :: Inside(p, size) ==> At(isFunction, p) == At(old(isFunction), p);
      SameGrid(isFunction, old(isFunction));
      hide FormatDark, FormatBits;
      SameGrid(modules, Symbol(version, ecl, codewords, msk));
    }

    /** The second application of a mask gives back the data modules that the first one inverted. */
    method Unmask(msk: nat, ghost codewords: seq<Byte>)
      requires Valid() && msk <= 7 && isFunction == FunctionMap(version)
      requires modules == Symbol(version, ecl, codewords, msk)
      modifies `modules
      ensures Valid() && Unmasked(codewords)
    {
      hide Invert, Masked, FunctionMap, AllDataPlaces, CodewordBits, Symbol, Size, At, Square, PlacedBit, InFormat;
      FunctionDarkOffFormat(version, ecl, msk);
      hide IsFunction, FunctionDark;
      var ok := ApplyMask(msk);
    }

    /** Do masking: the given mask, or with -1 the one whose symbol has the least penalty. */
    method DoMasking(msk: int, penalty: Grid -> int, ghost codewords: seq<Byte>)
      requires Valid() && -1 <= msk <= 7 && Unmasked(codewords)
      requires forall g :: 0 <= penalty(g) <= 2568888
      modifies this
      ensures Valid() && 0 <= mask <= 7 && isFunction == old(isFunction)
      ensures modules == Symbol(version, ecl, codewords, mask)
      ensures msk >= 0 ==> mask == msk
      ensures msk == -1 ==> BestMask(version, ecl, codewords, penalty, mask, 8)
    {
      hide Unmasked, Symbol, FunctionMap;
      var choice := msk;
      if msk == -1 {
        var minPenalty := 0x7FFF_FFFF_FFFF_FFFF;
        for i := 0 to 8
          invariant Valid() && Unmasked(codewords) && isFunction == old(isFunction)
          invariant i == 0 ==> minPenalty == 0x7FFF_FFFF_FFFF_FFFF && choice == -1
          invariant i > 0 ==> 0 <= choice < i && minPenalty == penalty(Symbol(version, ecl, codewords, choice))
          invariant i > 0 ==> BestMask(version, ecl, codewords, penalty, choice, i)
        {
          assert isFunction == FunctionMap(version) by { UnmaskedMap(codewords); }
          DrawMasked(i, codewords);
          var p := penalty(modules);
          if p < minPenalty {
            choice := i;
            minPenalty := p;
          }
          Unmask(i, codewords);
        }
      }
      mask := choice;
      DrawMasked(choice, codewords);
    }

    lemma UnmaskedMap(codewords: seq<Byte>)
      requires Valid() && Unmasked(codewords)
      ensures isFunction == FunctionMap(version)
    {
    }

    lemma CodewordsAreUnmasked(blank: Grid, codewords: seq<Byte>)
      requires Valid() && isFunction == FunctionMap(version) && |blank| == size && Square(blank, size)
      requires |codewords| == RawCodewords(version)
      requires forall p :: Inside(p, size) ==>
                 At(blank, p) == (IsFunction(version, p) && FunctionDark(version, ecl, 0, p))
      requires Placed(blank, modules, AllDataPlaces(isFunction), CodewordBits(codewords))
      ensures Unmasked(codewords)
    {
      var places, bits := AllDataPlaces(isFunction), CodewordBits(codewords);
      DataPlacesCount(version);
      DataPlacesOffFunctions(version);
      hide FunctionMap, AllDataPlaces, IsFunction, FunctionDark, At, Square, Distinct, NumRawDataModules, CodewordBits, Size;
      hide InFormat, PlacedBit;
      forall p | Inside(p, size)
        ensures At(modules, p) == if IsFunction(version, p) then At(blank, p) else PlacedBit(places, bits, p)
      {
        PlacedAt(blank, modules, places, bits, p);
      }
    }
  }

  // ----- the whole construction

  method Create(ver: int, e: Ecc, dataCodewords: seq<Byte>, msk: int, penalty: Grid -> int)
    returns (r: Result<QrCode, QrError>)
    requires forall g :: 0 <= penalty(g) <= 2568888
    ensures ver < MIN_VERSION || ver > MAX_VERSION ==> r == Err(VersionOutOfRange)
    ensures MIN_VERSION <= ver <= MAX_VERSION && (msk < -1 || msk > 7) ==> r == Err(MaskOutOfRange)
    ensures MIN_VERSION <= ver <= MAX_VERSION && -1 <= msk <= 7 ==>
              if |dataCodewords| != NumDataCodewords(ver, e) then r == Err(WrongData)
              else
                && r.Ok? && fresh(r.value) && r.value.Valid() && r.value.version == ver && r.value.ecl == e
                && 0 <= r.value.mask <= 7 && (msk >= 0 ==> r.value.mask == msk)
                && var all := Interleaved(dataCodewords, ShapeOf(ver, e));
                   && r.value.modules == Symbol(ver, e, all, r.value.mask)
                   && (msk == -1 ==> BestMask(ver, e, all, penalty, r.value.mask, 8))
  {
    if ver < MIN_VERSION || ver > MAX_VERSION {
      return Err(VersionOutOfRange);
    }
    if msk < -1 || msk > 7 {
      return Err(MaskOutOfRange);
    }
    hide Symbol, Interleaved, RawCodewords, NumDataCodewords, ShapeOf, FunctionMap, BestMask, QrCode.Unmasked, AllDataPlaces;
    var qr := new QrCode(ver, e);
    qr.DrawFunctionPatterns();
    var all := AddEccAndInterleave(dataCodewords, ver, e);
    if all.Err? {
      return Err(WrongData);
    }
    ghost var blank := qr.modules;
    var drawn := qr.DrawCodewords(all.value);
    qr.CodewordsAreUnmasked(blank, all.value);
    qr.DoMasking(msk, penalty, all.value);
    r := Ok(qr);
  }

  // ----- the alignment loops

  lemma AlignPositionsUsable(v: Version)
    ensures forall i :: 0 <= i < NumAlign(v) ==> 2 <= AlignPositions(v)[i] < Size(v) - 2
    ensures Apart(AlignPositions(v))
  {
    if v >= 2 {
      AlignPositionsApart(v);
      var pos, a := AlignPositions(v), NumAlign(v);
      hide AlignPositions, NumAlign;
      forall i | 0 <= i < a ensures 2 <= pos[i] < Size(v) - 2 {
        assert i > 0 ==> pos[i] - pos[0] >= 12;
        assert i < a - 1 ==> pos[a - 1] - pos[i] >= 12;
      }
    }
  }

  lemma AlignNone(pos: seq<int>)
    ensures forall p :: !InAlign(pos, p, 0, 0)
  {
  }

  /** What drawing pattern (i, j) adds; the patterns do not overlap, so no earlier one is overwritten. */
  lemma AlignNext(pos: seq<int>, p: Place, i: nat, j: nat)
    requires Apart(pos) && i < |pos| && j < |pos|
    ensures var here := !FinderCorner(i, j, |pos|) && Distance(p, pos[i], pos[j]) <= 2;
            && (InAlign(pos, p, i, j + 1) <==> InAlign(pos, p, i, j) || here)
            && (here ==> !AlignLight(pos, p, i, j + 1) == (Distance(p, pos[i], pos[j]) != 1))
            && (!here ==> AlignLight(pos, p, i, j + 1) == AlignLight(pos, p, i, j))
  {
    if Distance(p, pos[i], pos[j]) <= 2 {
      forall k, l | 0 <= k < |pos| && 0 <= l < |pos| && Distance(p, pos[k], pos[l]) <= 2 ensures k == i && l == j {
        assert Abs(pos[k] - pos[i]) <= 4 && Abs(pos[l] - pos[j]) <= 4;
      }
    }
  }

  lemma AlignNextRow(pos: seq<int>, p: Place, i: nat)
    requires i < |pos|
    ensures InAlign(pos, p, i + 1, 0) == InAlign(pos, p, i, |pos|)
    ensures AlignLight(pos, p, i + 1, 0) == AlignLight(pos, p, i, |pos|)
  {
  }

  // ----- regions of the format and version copies

  predicate InFormatFirst(p: Place)
  {
    (p.x == 8 && 0 <= p.y <= 8 && p.y != 6) || (p.y == 8 && 0 <= p.x <= 7 && p.x != 6)
  }

  predicate InFormatSecond(n: nat, p: Place)
  {
    (p.x == 8 && n - 8 <= p.y < n) || (p.y == 8 && n - 8 <= p.x < n)
  }

  /** The version bit shown in a module of one of the two copies. */
  function VersionIndex(n: nat, p: Place): int
  {
    if p.x >= n - 11 then 3 * p.y + p.x - (n - 11) else 3 * p.x + p.y - (n - 11)
  }

  /** The modules that show one of the first i version bits. */
  predicate VersionStep(n: nat, p: Place, i: nat)
  {
    && ((n - 11 <= p.x < n - 8 && 0 <= p.y < 6) || (n - 11 <= p.y < n - 8 && 0 <= p.x < 6))
    && 0 <= VersionIndex(n, p) < i
  }

  lemma VersionNext(n: nat, p: Place, i: nat)
    requires n >= 45 && i < 18
    ensures VersionStep(n, p, i + 1) <==>
              VersionStep(n, p, i) || p == Place(n - 11 + i % 3, i / 3) || p == Place(i / 3, n - 11 + i % 3)
    ensures p == Place(n - 11 + i % 3, i / 3) || p == Place(i / 3, n - 11 + i % 3) ==> VersionIndex(n, p) == i
    ensures VersionStep(n, p, i) ==> VersionIndex(n, p) < i
  {
  }

  lemma FormatOffVersion(v: Version, p: Place)
    ensures !(InFormat(Size(v), p) && InVersion(v, p))
  {
  }

  // ----- the zigzag loop

  function Shorter(a: nat, b: nat): nat
  {
    if a < b then a else b
  }

  /** The bits are in the modules of s, as far as both go, and nothing else has changed. */
  ghost predicate Placed(before: Grid, after: Grid, s: seq<Place>, bits: seq<bool>)
  {
    var n, k := |before|, Shorter(|s|, |bits|);
    && |after| == n && Square(before, n) && Square(after, n)
    && (forall m :: 0 <= m < |s| ==> Inside(s[m], n))
    && (forall m :: 0 <= m < k ==> At(after, s[m]) == bits[m])
    && (forall p :: Inside(p, n) && p !in s[..k] ==> At(after, p) == At(before, p))
  }

  lemma PlacedNothing(g: Grid, bits: seq<bool>)
    requires Square(g, |g|)
    ensures Placed(g, g, [], bits)
  {
  }

  lemma PlacedOneMore(before: Grid, after: Grid, s: seq<Place>, bits: seq<bool>, p: Place)
    requires Placed(before, after, s, bits) && |s| < |bits| && p !in s && Inside(p, |after|)
    ensures Placed(before, Put(after, p, bits[|s|]), s + [p], bits)
  {
    hide Put, At;
    var k := |s|;
    assert (s + [p])[..k + 1] == s + [p] && s[..k] == s;
  }

  lemma PlacedNoMore(before: Grid, after: Grid, s: seq<Place>, bits: seq<bool>, p: Place)
    requires Placed(before, after, s, bits) && |s| >= |bits| && Inside(p, |after|)
    ensures Placed(before, after, s + [p], bits)
  {
    hide At;
    assert (s + [p])[..|bits|] == s[..|bits|];
  }

  lemma RightColumnIs(n: nat, c: nat, right: int)
    requires ScanSize(n) && 2 * c < n - 1
    requires right == if n - 1 - 2 * c > 6 then n - 1 - 2 * c else n - 2 - 2 * c
    ensures right == RightColumn(n, c)
  {
  }

  /** The data modules visited before (c, vert) and among its first j modules. */
  function VisitUpTo(f: Grid, c: nat, vert: nat, j: nat): (s: seq<Place>)
    requires ScanSize(|f|) && Square(f, |f|) && 2 * c < |f| - 1 && vert < |f| && j <= 2
  {
    if j == 0 then DataPlaces(f, c, vert)
    else
      PlaceOfInverse(|f|, c, vert, j - 1);
      var p := PlaceOf(|f|, c, vert, j - 1);
      VisitUpTo(f, c, vert, j - 1) + (if At(f, p) then [] else [p])
  }

  /** The next module of the scan has not been visited before. */
  lemma PlaceNotVisited(f: Grid, c: nat, vert: nat, j: nat, p: Place)
    requires ScanSize(|f|) && Square(f, |f|) && 2 * c < |f| - 1 && vert < |f| && j < 2
    requires p == Place(RightColumn(|f|, c) - j, if (RightColumn(|f|, c) + 1) / 2 % 2 == 0 then |f| - 1 - vert else vert)
    ensures Inside(p, |f|) && p !in VisitUpTo(f, c, vert, j)
    ensures VisitUpTo(f, c, vert, j + 1) == VisitUpTo(f, c, vert, j) + (if At(f, p) then [] else [p])
  {
    assert p == PlaceOf(|f|, c, vert, j);
    PlaceOfInverse(|f|, c, vert, j);
    PlaceOfInverse(|f|, c, vert, 0);
    assert j == 1 ==> PlaceOf(|f|, c, vert, 0).x != p.x;
    hide PlaceOf, PairOf, VertOf, DataPlaces, RightColumn;
    DataPlacesExact(f, c, vert);
  }

  lemma DataPlacesStart(f: Grid)
    requires ScanSize(|f|) && Square(f, |f|)
    ensures DataPlaces(f, 0, 0) == []
  {
  }

  lemma DataPlacesNext(f: Grid, c: nat, vert: nat)
    requires ScanSize(|f|) && Square(f, |f|) && 2 * c < |f| - 1 && vert < |f|
    ensures DataPlaces(f, c, vert + 1) == VisitUpTo(f, c, vert, 2)
    ensures DataPlaces(f, c, vert) == VisitUpTo(f, c, vert, 0)
  {
    hide PlaceOf, PairOf, VertOf, At;
    PlaceOfInverse(|f|, c, vert, 0);
    PlaceOfInverse(|f|, c, vert, 1);
    var p, q := PlaceOf(|f|, c, vert, 0), PlaceOf(|f|, c, vert, 1);
    var d, a, b := DataPlaces(f, c, vert), if At(f, p) then [] else [p], if At(f, q) then [] else [q];
    assert VisitUpTo(f, c, vert, 1) == d + a;
    assert (d + a) + b == d + (a + b);
  }

  lemma DataPlacesNextPair(f: Grid, c: nat)
    requires ScanSize(|f|) && Square(f, |f|) && 2 * c < |f| - 1
    ensures DataPlaces(f, c + 1, 0) == DataPlaces(f, c, |f|)
  {
  }

  // ----- the choice of mask

  /** Among the first n masks, mask is the least whose symbol has the minimal penalty. */
  ghost predicate BestMask(v: Version, ecl: Ecc, codewords: seq<Byte>, penalty: Grid -> int, mask: int, n: nat)
    requires n <= 8
  {
    && 0 <= mask < n
    && (forall i :: 0 <= i < n ==> penalty(Symbol(v, ecl, codewords, mask)) <= penalty(Symbol(v, ecl, codewords, i)))
    && (forall i :: 0 <= i < mask ==> penalty(Symbol(v, ecl, codewords, mask)) < penalty(Symbol(v, ecl, codewords, i)))
  }

  lemma FunctionDarkOffFormat(v: Version, ecl: Ecc, mask: nat)
    requires mask < 8
    ensures forall p :: IsFunction(v, p) && !InFormat(Size(v), p) ==> FunctionDark(v, ecl, mask, p) == FunctionDark(v, ecl, 0, p)
    ensures forall p :: InFormat(Size(v), p) ==>
              IsFunction(v, p) && FunctionDark(v, ecl, mask, p) == FormatDark(Size(v), FormatBits(ecl, mask), p)
  {
    hide FormatBits, FormatDark, VersionDark, PatternDark;
  }

  lemma PlacedAt(before: Grid, after: Grid, s: seq<Place>, bits: seq<bool>, p: Place)
    requires Placed(before, after, s, bits) && |bits| <= |s| && Inside(p, |before|)
    requires forall m :: 0 <= m < |s| ==> !At(before, s[m])
    ensures p in s ==> At(after, p) == PlacedBit(s, bits, p)
    ensures p !in s ==> At(after, p) == At(before, p)
  {
    hide At, Square;
    if p in s {
      var k := IndexOf(s, p);
      assert s[k] == p;
      if k >= |bits| {
        assert p !in s[..|bits|];
      }
    }
  }
}
