/** What the function modules of a finished symbol look like: finder and alignment patterns, timing lines, information. */
module SymbolPictures {
  import opened Integers
  import opened GaloisField
  import opened QrTables
  import opened Zigzag
  import opened FunctionModules
  import opened QrPatterns
  import opened QrInformation
  import opened QrSymbol

  // ----- finder patterns

  /** A finder pattern and its separator, as far as it lies in the symbol: '#' is dark. */
  const FINDER: seq<string> := [".........",
                                ".#######.",
                                ".#.....#.",
                                ".#.###.#.",
                                ".#.###.#.",
                                ".#.###.#.",
                                ".#.....#.",
                                ".#######.",
                                "........."]

  predicate RingDark(dx: int, dy: int)
  {
    var d := if Abs(dx) >= Abs(dy) then Abs(dx) else Abs(dy);
    d != 2 && d != 4
  }

  lemma FinderPicture(dx: int, dy: int)
    requires -4 <= dx <= 4 && -4 <= dy <= 4
    ensures |FINDER| == 9 && |FINDER[dy + 4]| == 9
    ensures FINDER[dy + 4][dx + 4] == '#' <==> RingDark(dx, dy)
  {
    match dy + 4
    case 0 => FinderRow(dx, 0);
    case 1 => FinderRow(dx, 1);
    case 2 => FinderRow(dx, 2);
    case 3 => FinderRow(dx, 3);
    case 4 => FinderRow(dx, 4);
    case 5 => FinderRow(dx, 5);
    case 6 => FinderRow(dx, 6);
    case 7 => FinderRow(dx, 7);
    case 8 => FinderRow(dx, 8);
  }

  lemma FinderRow(dx: int, r: nat)
    requires -4 <= dx <= 4 && r < 9
    ensures |FINDER| == 9 && |FINDER[r]| == 9
    ensures FINDER[r][dx + 4] == '#' <==> RingDark(dx, r - 4)
  {
  }

  /** The centre of a finder pattern: one corner each, but for the lower right one. */
  predicate FinderCentre(n: nat, x: int, y: int)
  {
    (x == 3 && y == 3) || (x == n - 4 && y == 3) || (x == 3 && y == n - 4)
  }

  lemma FinderOffOthers(v: Version, x: int, y: int, p: Place)
    requires FinderCentre(Size(v), x, y) && Inside(p, Size(v)) && NearFinder(p, x, y)
    ensures !InFormat(Size(v), p) && !InVersion(v, p) && InFinders(Size(v), p)
    ensures !InAlign(AlignPositions(v), p, NumAlign(v), 0)
  {
    var n, pos, a := Size(v), AlignPositions(v), NumAlign(v);
    if v >= 2 {
      AlignPositionsApart(v);
    }
  }

  lemma FinderModule(v: Version, ecl: Ecc, mask: nat, x: int, y: int, p: Place)
    requires mask < 8 && FinderCentre(Size(v), x, y) && Inside(p, Size(v)) && NearFinder(p, x, y)
    ensures IsFunction(v, p) && FunctionDark(v, ecl, mask, p) == RingDark(p.x - x, p.y - y)
  {
    FinderOffOthers(v, x, y, p);
    assert Size(v) >= 21;
    hide Size, InFormat, InVersion, InAlign, AlignPositions, NumAlign, FormatBits;
    assert FinderDark(Size(v), p) == FinderRing(p, x, y);
  }

  /** All three finder patterns show the picture, as far as it lies in the symbol. */
  lemma FinderShown(v: Version, ecl: Ecc, codewords: seq<Byte>, mask: nat, x: int, y: int, dx: int, dy: int)
    requires mask < 8 && FinderCentre(Size(v), x, y) && -4 <= dx <= 4 && -4 <= dy <= 4
    requires Inside(Place(x + dx, y + dy), Size(v))
    ensures |FINDER| == 9 && |FINDER[dy + 4]| == 9
    ensures At(Symbol(v, ecl, codewords, mask), Place(x + dx, y + dy)) <==> FINDER[dy + 4][dx + 4] == '#'
  {
    var p := Place(x + dx, y + dy);
    FinderModule(v, ecl, mask, x, y, p);
    hide Symbol, FunctionDark, IsFunction, FINDER;
    FinderPicture(dx, dy);
  }

  // ----- alignment patterns

  const ALIGNMENT: seq<string> := ["#####",
                                   "#...#",
                                   "#.#.#",
                                   "#...#",
                                   "#####"]

  lemma AlignmentPicture(dx: int, dy: int)
    requires -2 <= dx <= 2 && -2 <= dy <= 2
    ensures |ALIGNMENT| == 5 && |ALIGNMENT[dy + 2]| == 5
    ensures ALIGNMENT[dy + 2][dx + 2] == '#' <==> Abs(dx) == 2 || Abs(dy) == 2 || (dx == 0 && dy == 0)
  {
    match dy + 2
    case 0 => AlignmentRow(dx, 0);
    case 1 => AlignmentRow(dx, 1);
    case 2 => AlignmentRow(dx, 2);
    case 3 => AlignmentRow(dx, 3);
    case 4 => AlignmentRow(dx, 4);
  }

  lemma AlignmentRow(dx: int, r: nat)
    requires -2 <= dx <= 2 && r < 5
    ensures |ALIGNMENT| == 5 && |ALIGNMENT[r]| == 5
    ensures ALIGNMENT[r][dx + 2] == '#' <==> Abs(dx) == 2 || Abs(r - 2) == 2 || (dx == 0 && r == 2)
  {
  }

  /** An alignment pattern lies clear of the information around the finders, and of every other alignment pattern. */
  lemma AlignmentModule(v: Version, ecl: Ecc, mask: nat, k: nat, l: nat, p: Place)
    requires v >= 2 && mask < 8 && k < NumAlign(v) && l < NumAlign(v) && !FinderCorner(k, l, NumAlign(v))
    requires Distance(p, AlignPositions(v)[k], AlignPositions(v)[l]) <= 2
    ensures Inside(p, Size(v)) && IsFunction(v, p)
    ensures FunctionDark(v, ecl, mask, p) == (Distance(p, AlignPositions(v)[k], AlignPositions(v)[l]) != 1)
  {
    var n, pos, a := Size(v), AlignPositions(v), NumAlign(v);
    AlignPositionsApart(v);
    assert InAlign(pos, p, a, 0);
    AlignInside(v, p);
    assert n == 4 * v + 17;
    hide AlignPositions, NumAlign, Size, FormatBits;
    AlignmentClear(v, n, pos, k, l, p);
    OneCentre(pos, k, l, p);
  }

  lemma AlignmentClear(v: Version, n: nat, pos: seq<int>, k: nat, l: nat, p: Place)
    requires n == Size(v) && |pos| >= 2 && pos[0] == 6 && pos[|pos| - 1] == n - 7 && Apart(pos)
    requires k < |pos| && l < |pos| && !FinderCorner(k, l, |pos|) && Distance(p, pos[k], pos[l]) <= 2
    ensures !InFormat(n, p) && !InVersion(v, p)
  {
    assert k > 0 ==> pos[k] - pos[0] >= 12;
    assert l > 0 ==> pos[l] - pos[0] >= 12;
    assert k < |pos| - 1 ==> pos[|pos| - 1] - pos[k] >= 12;
    assert l < |pos| - 1 ==> pos[|pos| - 1] - pos[l] >= 12;
  }

  lemma OneCentre(pos: seq<int>, k: nat, l: nat, p: Place)
    requires Apart(pos) && k < |pos| && l < |pos| && !FinderCorner(k, l, |pos|) && Distance(p, pos[k], pos[l]) <= 2
    ensures AlignLight(pos, p, |pos|, 0) <==> Distance(p, pos[k], pos[l]) == 1
  {
    if AlignLight(pos, p, |pos|, 0) {
      var i, j :| 0 <= i < |pos| && 0 <= j < |pos| && !FinderCorner(i, j, |pos|) && Distance(p, pos[i], pos[j]) == 1;
      SameIndex(pos, k, i);
      SameIndex(pos, l, j);
    }
  }

  lemma SameIndex(pos: seq<int>, k: nat, i: nat)
    requires Apart(pos) && k < |pos| && i < |pos| && Abs(pos[k] - pos[i]) < 12
    ensures k == i
  {
  }

  /** Every alignment pattern shows the picture. */
  lemma AlignmentShown(v: Version, ecl: Ecc, codewords: seq<Byte>, mask: nat, k: nat, l: nat, dx: int, dy: int)
    requires v >= 2 && mask < 8 && k < NumAlign(v) && l < NumAlign(v) && !FinderCorner(k, l, NumAlign(v))
    requires -2 <= dx <= 2 && -2 <= dy <= 2
    ensures |ALIGNMENT| == 5 && |ALIGNMENT[dy + 2]| == 5
    ensures var p := Place(AlignPositions(v)[k] + dx, AlignPositions(v)[l] + dy);
            Inside(p, Size(v)) && (At(Symbol(v, ecl, codewords, mask), p) <==> ALIGNMENT[dy + 2][dx + 2] == '#')
  {
    var p := Place(AlignPositions(v)[k] + dx, AlignPositions(v)[l] + dy);
    AlignmentModule(v, ecl, mask, k, l, p);
    hide Symbol, FunctionDark, IsFunction, ALIGNMENT, AlignPositions, NumAlign, Size;
    AlignmentPicture(dx, dy);
  }

  // ----- timing lines

  lemma EvenPositions(v: Version, i: nat)
    requires v >= 2 && i < NumAlign(v)
    ensures AlignPositions(v)[i] % 2 == 0
  {
    hide AlignStep, NumAlign;
    if i > 0 {
      EvenStep(v);
      EvenMultiple(NumAlign(v) - 1 - i, AlignStep(v));
      assert AlignAt(v, i) == 4 * v + 10 - (NumAlign(v) - 1 - i) * AlignStep(v);
    }
  }

  lemma EvenStep(v: Version)
    requires v >= 2
    ensures AlignStep(v) % 2 == 0
  {
  }

  lemma {:induction false} EvenMultiple(k: nat, step: int)
    requires step % 2 == 0
    ensures k * step % 2 == 0
  {
    if k > 0 {
      EvenMultiple(k - 1, step);
      assert k * step == (k - 1) * step + step;
    }
  }

  /** Between the finders row and column 6 alternate, dark at even coordinates, alignment patterns on them included. */
  lemma TimingModule(v: Version, ecl: Ecc, mask: nat, i: nat, p: Place)
    requires mask < 8 && 8 <= i < Size(v) - 8 && (p == Place(i, 6) || p == Place(6, i))
    ensures IsFunction(v, p) && FunctionDark(v, ecl, mask, p) == (i % 2 == 0)
  {
    var n, pos, a := Size(v), AlignPositions(v), NumAlign(v);
    assert !InFormat(n, p) && !InVersion(v, p) && !InFinders(n, p);
    hide FormatBits, AlignLight;
    if InAlign(pos, p, a, 0) {
      assert v >= 2;
      hide FunctionDark, IsFunction, AlignPositions, NumAlign;
      var k, l :| 0 <= k < a && 0 <= l < a && !FinderCorner(k, l, a) && Distance(p, pos[k], pos[l]) <= 2;
      TimingInAlignment(v, ecl, mask, i, p, k, l);
    }
  }

  lemma TimingInAlignment(v: Version, ecl: Ecc, mask: nat, i: nat, p: Place, k: nat, l: nat)
    requires v >= 2 && mask < 8 && 8 <= i < Size(v) - 8 && (p == Place(i, 6) || p == Place(6, i))
    requires k < NumAlign(v) && l < NumAlign(v) && !FinderCorner(k, l, NumAlign(v))
    requires Distance(p, AlignPositions(v)[k], AlignPositions(v)[l]) <= 2
    ensures IsFunction(v, p) && FunctionDark(v, ecl, mask, p) == (i % 2 == 0)
  {
    var pos := AlignPositions(v);
    AlignPositionsApart(v);
    EvenPositions(v, k);
    EvenPositions(v, l);
    AlignmentModule(v, ecl, mask, k, l, p);
    hide AlignPositions, NumAlign, FunctionDark, IsFunction, Size, Apart, Distance;
    OnLine(pos, i, p, k, l);
  }

  /** An alignment pattern on a timing line is centred on it, at an even coordinate. */
  lemma OnLine(pos: seq<int>, i: nat, p: Place, k: nat, l: nat)
    requires Apart(pos) && k < |pos| && l < |pos| && pos[0] == 6 && pos[k] % 2 == 0 && pos[l] % 2 == 0
    requires i >= 8 && (p == Place(i, 6) || p == Place(6, i)) && Distance(p, pos[k], pos[l]) <= 2
    ensures Distance(p, pos[k], pos[l]) != 1 <==> i % 2 == 0
  {
    assert k > 0 ==> pos[k] - pos[0] >= 12;
    assert l > 0 ==> pos[l] - pos[0] >= 12;
    var c := if p.y == 6 then pos[k] else pos[l];
    assert Distance(p, pos[k], pos[l]) == Abs(i - c);
  }

  lemma TimingShown(v: Version, ecl: Ecc, codewords: seq<Byte>, mask: nat, i: nat)
    requires mask < 8 && 8 <= i < Size(v) - 8
    ensures At(Symbol(v, ecl, codewords, mask), Place(i, 6)) <==> i % 2 == 0
    ensures At(Symbol(v, ecl, codewords, mask), Place(6, i)) <==> i % 2 == 0
  {
    TimingModule(v, ecl, mask, i, Place(i, 6));
    TimingModule(v, ecl, mask, i, Place(6, i));
    hide Symbol, FunctionDark, IsFunction;
  }

  // ----- format and version information

  /** Where bit i of the format information is shown first: around the upper left finder. */
  function FirstCopy(i: nat): Place
  {
    if i < 6 then Place(8, i) else if i < 8 then Place(8, i + 1) else if i == 8 then Place(7, 8) else Place(14 - i, 8)
  }

  /** And where again: along the other two finders. */
  function SecondCopy(n: int, i: nat): Place
  {
    if i < 8 then Place(n - 1 - i, 8) else Place(8, n - 15 + i)
  }

  /** Both copies of the format information show the code of the level and the mask, beside a module that is always dark. */
  lemma FormatShown(v: Version, ecl: Ecc, codewords: seq<Byte>, mask: nat, i: nat)
    requires mask < 8 && i < 15
    ensures Inside(FirstCopy(i), Size(v)) && Inside(SecondCopy(Size(v), i), Size(v))
    ensures At(Symbol(v, ecl, codewords, mask), FirstCopy(i)) == GetBit(FormatCode(ecl, mask), i)
    ensures At(Symbol(v, ecl, codewords, mask), SecondCopy(Size(v), i)) == GetBit(FormatCode(ecl, mask), i)
    ensures At(Symbol(v, ecl, codewords, mask), Place(8, Size(v) - 8))
  {
    FormatTable(ecl, mask);
    hide FormatBits, FormatCode, GetBit, Symbol;
    var n, bits := Size(v), FormatBits(ecl, mask);
    FormatPlaces(n, bits, i);
    assert n >= 21;
    hide FormatDark, FirstCopy, SecondCopy, InFormat, Size;
    assert IsFunction(v, FirstCopy(i)) && IsFunction(v, SecondCopy(n, i)) && IsFunction(v, Place(8, n - 8));
  }

  lemma FormatPlaces(n: nat, bits: bv32, i: nat)
    requires n >= 21 && i < 15
    ensures Inside(FirstCopy(i), n) && InFormat(n, FirstCopy(i))
    ensures FormatDark(n, bits, FirstCopy(i)) == GetBit(bits, i)
    ensures Inside(SecondCopy(n, i), n) && InFormat(n, SecondCopy(n, i))
    ensures FormatDark(n, bits, SecondCopy(n, i)) == GetBit(bits, i)
    ensures InFormat(n, Place(8, n - 8)) && FormatDark(n, bits, Place(8, n - 8))
  {
    hide GetBit;
  }

  /** From version 7 on two blocks of 3 by 6, mirror images of each other, show the code of the version. */
  lemma VersionShown(v: Version, ecl: Ecc, codewords: seq<Byte>, mask: nat, i: nat)
    requires v >= 7 && mask < 8 && i < 18
    ensures var n, g := Size(v), Symbol(v, ecl, codewords, mask);
            && At(g, Place(n - 11 + i % 3, i / 3)) == GetBit(VersionCode(v), i)
            && At(g, Place(i / 3, n - 11 + i % 3)) == GetBit(VersionCode(v), i)
  {
    VersionTable(v);
    hide VersionBits, VersionCode, GetBit, Symbol, FormatBits, PatternDark;
    var n := Size(v);
    var p, q := Place(n - 11 + i % 3, i / 3), Place(i / 3, n - 11 + i % 3);
    VersionPlaces(v, i);
    assert IsFunction(v, p) && IsFunction(v, q);
    assert !InFormat(n, p) && !InFormat(n, q);
  }

  lemma VersionPlaces(v: Version, i: nat)
    requires v >= 7 && i < 18
    ensures var n := Size(v);
            var p, q := Place(n - 11 + i % 3, i / 3), Place(i / 3, n - 11 + i % 3);
            && Inside(p, n) && Inside(q, n) && InVersion(v, p) && InVersion(v, q)
            && VersionDark(v, p) == GetBit(VersionBits(v), i) && VersionDark(v, q) == GetBit(VersionBits(v), i)
  {
    hide GetBit, VersionBits;
    assert 3 * (i / 3) + i % 3 == i;
  }

  // ----- where the alignment patterns are

  /** The distance between neighbouring centres, but for the first two (table E.1). */
  function Spacing(v: Version): int
    requires v >= 7
  {
    match v
    case 7 => 16 case 8 => 18 case 9 => 20 case 10 => 22 case 11 => 24 case 12 => 26 case 13 => 28
    case 14 => 20 case 15 => 22 case 16 => 24 case 17 => 24 case 18 => 26 case 19 => 28 case 20 => 28
    case 21 => 22 case 22 => 24 case 23 => 24 case 24 => 26 case 25 => 26 case 26 => 28 case 27 => 28
    case 28 => 24 case 29 => 24 case 30 => 26 case 31 => 26 case 32 => 26 case 33 => 28 case 34 => 28
    case 35 => 24 case 36 => 26 case 37 => 26 case 38 => 26 case 39 => 28 case _ => 28
  }

  lemma StepIsSpacing(v: Version)
    requires v >= 7
    ensures AlignStep(v) == Spacing(v)
  {
    hide AlignStep, Spacing;
    if v <= 20 {
      FirstSpacings(v);
    } else {
      LastSpacings(v);
    }
  }

  lemma FirstSpacings(v: Version)
    requires 7 <= v <= 20
    ensures AlignStep(v) == Spacing(v)
  {
  }

  lemma LastSpacings(v: Version)
    requires v > 20
    ensures AlignStep(v) == Spacing(v)
  {
  }

  /** The centres begin at 6, end seven modules before the border, and are equally spaced from there down to the second. */
  lemma AlignmentPositions(v: Version, i: nat)
    requires v >= 2
    ensures var pos := AlignPositions(v);
            && |pos| == v / 7 + 2 && pos[0] == 6 && pos[|pos| - 1] == 4 * v + 10
            && (0 < i < |pos| - 1 ==> v >= 7 && pos[i + 1] - pos[i] == Spacing(v))
  {
    AlignPositionsApart(v);
    if 0 < i < NumAlign(v) - 1 {
      StepIsSpacing(v);
      var step, k := AlignStep(v), NumAlign(v) - 1 - i;
      hide AlignStep, Spacing;
      assert k * step == (k - 1) * step + step;
      assert AlignPositions(v)[i] == AlignAt(v, i) && AlignPositions(v)[i + 1] == AlignAt(v, i + 1);
    }
  }
}
