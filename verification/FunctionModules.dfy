/**
 The modules of a QR code that do not carry codeword bits: finder, timing and alignment patterns, and the
 format and version information.
 */
module FunctionModules {
  import opened Integers
  import opened QrTables
  import opened Sets
  import opened Zigzag

  function Size(v: Version): nat
  {
    4 * v + 17
  }

  // ----- alignment patterns

  function AlignStep(v: Version): int
    requires v >= 2
  {
    var a := NumAlign(v);
    (v * 8 + a * 3 + 5) / (a * 4 - 4) * 2
  }

  function AlignAt(v: Version, i: nat): int
    requires v >= 2
  {
    if i == 0 then 6 else Size(v) - 7 - (NumAlign(v) - 1 - i) * AlignStep(v)
  }

  /** The centre coordinates of the alignment patterns, in increasing order. */
  function AlignPositions(v: Version): (s: seq<int>)
    ensures |s| == NumAlign(v)
  {
    if v == 1 then [] else seq(NumAlign(v), i requires 0 <= i => AlignAt(v, i))
  }

  method ComputeAlignPositions(v: Version) returns (result: seq<int>)
    ensures result == AlignPositions(v)
  {
    if v == 1 {
      return [];
    }
    var numAlign := v / 7 + 2;
    var step := (v * 8 + numAlign * 3 + 5) / (numAlign * 4 - 4) * 2;
    assert step == AlignStep(v);
    hide AlignStep;
    result := [];
    var pos := Size(v) - 7;
    for i := 0 to numAlign - 1
      invariant pos == Size(v) - 7 - i * step
      invariant |result| == i
      invariant forall k :: 0 <= k < i ==> result[k] == AlignAt(v, numAlign - i + k)
    {
      ghost var before := result;
      result := [pos] + result;
      pos := pos - step;
      assert forall k :: 0 < k <= i ==> result[k] == before[k - 1];
    }
    result := [6] + result;
    assert forall k :: 0 <= k < numAlign ==> result[k] == AlignAt(v, k);
  }

  /** The three places that finder patterns take and alignment patterns leave free. */
  predicate FinderCorner(i: int, j: int, a: int)
  {
    (i == 0 && j == 0) || (i == 0 && j == a - 1) || (i == a - 1 && j == 0)
  }

  /** The Chebyshev distance of a module from a centre. */
  function Distance(p: Place, x: int, y: int): nat
  {
    if Abs(p.x - x) >= Abs(p.y - y) then Abs(p.x - x) else Abs(p.y - y)
  }

  /** The part of the alignment patterns drawn when the loops have reached pattern (i, j). */
  predicate InAlign(pos: seq<int>, p: Place, i: int, j: int)
  {
    var a := |pos|;
    exists k, l :: 0 <= k < a && 0 <= l < a && (k < i || (k == i && l < j)) && !FinderCorner(k, l, a) &&
                   Distance(p, pos[k], pos[l]) <= 2
  }

  // ----- the regions

  predicate InTiming(p: Place)
  {
    p.x == 6 || p.y == 6
  }

  /** A finder pattern and its separator, centred on (x, y). */
  predicate NearFinder(p: Place, x: int, y: int)
  {
    Distance(p, x, y) <= 4
  }

  predicate InFinders(n: nat, p: Place)
  {
    NearFinder(p, 3, 3) || NearFinder(p, n - 4, 3) || NearFinder(p, 3, n - 4)
  }

  predicate InFormat(n: nat, p: Place)
  {
    || (p.x == 8 && ((0 <= p.y <= 8 && p.y != 6) || n - 8 <= p.y < n))
    || (p.y == 8 && ((0 <= p.x <= 8 && p.x != 6) || n - 8 <= p.x < n))
  }

  predicate InVersion(v: Version, p: Place)
  {
    var n := Size(v);
    && v >= 7
    && ((n - 11 <= p.x < n - 8 && 0 <= p.y < 6) || (n - 11 <= p.y < n - 8 && 0 <= p.x < 6))
  }

  predicate IsFunction(v: Version, p: Place)
  {
    || InTiming(p)
    || InFinders(Size(v), p)
    || InAlign(AlignPositions(v), p, NumAlign(v), 0)
    || InFormat(Size(v), p)
    || InVersion(v, p)
  }

  /** The map of all function modules of a version. */
  function FunctionMap(v: Version): (f: Grid)
    ensures |f| == Size(v) && Square(f, Size(v)) && ScanSize(|f|)
    ensures forall p :: Inside(p, Size(v)) ==> At(f, p) == IsFunction(v, p)
  {
    seq(Size(v), y requires 0 <= y < Size(v) => seq(Size(v), x requires 0 <= x < Size(v) => IsFunction(v, Place(x, y))))
  }

  // ----- counting

  function Product(xs: set<int>, ys: set<int>): (r: set<Place>)
    ensures forall p :: p in r <==> p.x in xs && p.y in ys
  {
    set x, y | x in xs && y in ys :: Place(x, y)
  }

  lemma {:induction false} ProductSize(xs: set<int>, ys: set<int>)
    ensures |Product(xs, ys)| == |xs| * |ys|
  {
    hide Product;
    if xs != {} {
      var x := Pick(xs);
      ProductSize(xs - {x}, ys);
      RowSize(x, ys);
      assert Product(xs, ys) == Product(xs - {x}, ys) + Product({x}, ys);
      assert Product(xs - {x}, ys) !! Product({x}, ys);
      assert |xs| * |ys| == (|xs| - 1) * |ys| + |ys|;
    } else {
      assert Product(xs, ys) == {};
    }
  }

  lemma {:induction false} RowSize(x: int, ys: set<int>)
    ensures |Product({x}, ys)| == |ys|
  {
    hide Product;
    if ys != {} {
      var y := Pick(ys);
      RowSize(x, ys - {y});
      assert Product({x}, ys) == Product({x}, ys - {y}) + {Place(x, y)};
    } else {
      assert Product({x}, ys) == {};
    }
  }

  predicate InBand(pos: seq<int>, i: nat, x: int)
    requires i < |pos|
  {
    pos[i] - 2 <= x < pos[i] + 3
  }

  /** The coordinates within two modules of alignment centres number lo up to hi. */
  function Bands(pos: seq<int>, lo: nat, hi: nat): set<int>
    requires lo <= hi <= |pos|
    decreases hi - lo
  {
    if lo == hi then {} else Bands(pos, lo, hi - 1) + Interval(pos[hi - 1] - 2, pos[hi - 1] + 3)
  }

  lemma {:induction false} InBands(pos: seq<int>, lo: nat, hi: nat, x: int)
    requires lo <= hi <= |pos|
    ensures x in Bands(pos, lo, hi) <==> exists i :: lo <= i < hi && InBand(pos, i, x)
    decreases hi - lo
  {
    hide Interval;
    if lo < hi {
      InBands(pos, lo, hi - 1, x);
      var band := Interval(pos[hi - 1] - 2, pos[hi - 1] + 3);
      assert x in Bands(pos, lo, hi) <==> x in Bands(pos, lo, hi - 1) || x in band;
      assert x in band <==> InBand(pos, hi - 1, x);
    }
  }

  /** Alignment centres are far enough apart that the patterns do not touch each other. */
  predicate Apart(pos: seq<int>)
  {
    forall i, j :: 0 <= i < j < |pos| ==> pos[j] - pos[i] >= 12
  }

  lemma {:induction false} BandsSize(pos: seq<int>, lo: nat, hi: nat)
    requires lo <= hi <= |pos| && Apart(pos)
    ensures |Bands(pos, lo, hi)| == 5 * (hi - lo)
    decreases hi - lo
  {
    hide Interval;
    if lo < hi {
      BandsSize(pos, lo, hi - 1);
      var band := Interval(pos[hi - 1] - 2, pos[hi - 1] + 3);
      forall x | x in band ensures x !in Bands(pos, lo, hi - 1) {
        InBands(pos, lo, hi - 1, x);
      }
    }
  }

  lemma AlignStepBounds(v: Version)
    requires v >= 7
    ensures var a, step := NumAlign(v), AlignStep(v); 3 <= a <= 7 && 12 <= step && Size(v) - 7 - (a - 2) * step >= 18
  {
    var a := NumAlign(v);
    if a == 3 {
    } else if a == 4 {
    } else if a == 5 {
    } else if a == 6 {
    } else {
      assert a == 7;
    }
  }

  lemma MulAtLeast(k: int, step: int, bound: int)
    requires k >= 1 && step >= bound >= 0
    ensures k * step >= bound
  {
    assert (k - 1) * step >= 0;
  }

  lemma AlignPositionsApart(v: Version)
    requires v >= 2
    ensures var pos, a := AlignPositions(v), NumAlign(v);
            && a >= 2 && pos[0] == 6 && pos[a - 1] == Size(v) - 7
            && Apart(pos)
  {
    forall i, j | 0 <= i < j < NumAlign(v) ensures AlignAt(v, j) - AlignAt(v, i) >= 12 {
      AlignGap(v, i, j);
    }
  }

  lemma AlignGap(v: Version, i: nat, j: nat)
    requires v >= 2 && i < j < NumAlign(v)
    ensures AlignAt(v, j) - AlignAt(v, i) >= 12
  {
    var a, step := NumAlign(v), AlignStep(v);
    if v >= 7 {
      AlignStepBounds(v);
      hide AlignStep;
      if i > 0 {
        assert AlignAt(v, j) - AlignAt(v, i) == (j - i) * step;
        MulAtLeast(j - i, step, 12);
      } else {
        assert AlignAt(v, j) == Size(v) - 7 - (a - 2) * step + (j - 1) * step;
        if j > 1 {
          MulAtLeast(j - 1, step, 0);
        }
      }
    }
  }

  // ----- the function modules as a disjoint union of rectangles

  /** The three corners: finder patterns, their separators and the format information around them. */
  function Corners(n: nat): set<Place>
    requires n >= 21
  {
    Product(Interval(0, 9), Interval(0, 9)) + Product(Interval(n - 8, n), Interval(0, 9)) +
    Product(Interval(0, 9), Interval(n - 8, n))
  }

  /** The two timing lines between the corners. */
  function Lines(n: nat): set<Place>
    requires n >= 21
  {
    Product(Interval(9, n - 8), {6}) + Product({6}, Interval(9, n - 8))
  }

  /** The alignment patterns, without the modules they share with the timing lines. */
  function Aligns(v: Version): set<Place>
  {
    if v == 1 then {}
    else
      var pos, a := AlignPositions(v), NumAlign(v);
      AlignRectangles(Bands(pos, 1, a), Bands(pos, 1, a - 1))
  }

  function AlignRectangles(outer: set<int>, inner: set<int>): set<Place>
  {
    Product(outer, outer) + (Product({4, 5, 7, 8}, inner) + Product(inner, {4, 5, 7, 8}))
  }

  function Versions(v: Version): set<Place>
  {
    var n := Size(v);
    if v < 7 then {}
    else Product(Interval(n - 11, n - 8), Interval(0, 6)) + Product(Interval(0, 6), Interval(n - 11, n - 8))
  }

  lemma UnionSize<T>(s: set<T>, t: set<T>)
    requires forall x :: x in s ==> x !in t
    ensures |s + t| == |s| + |t|
  {
    assert s !! t;
  }

  lemma CornersSize(n: nat)
    requires n >= 21
    ensures |Corners(n)| == 225
  {
    hide Interval, Product;
    var near, far := Interval(0, 9), Interval(n - 8, n);
    ProductSize(near, near);
    ProductSize(far, near);
    ProductSize(near, far);
    UnionSize(Product(near, near), Product(far, near));
    UnionSize(Product(near, near) + Product(far, near), Product(near, far));
  }

  lemma LinesSize(n: nat)
    requires n >= 21
    ensures |Lines(n)| == 2 * (n - 17)
  {
    hide Interval, Product;
    var between := Interval(9, n - 8);
    ProductSize(between, {6});
    ProductSize({6}, between);
    UnionSize(Product(between, {6}), Product({6}, between));
  }

  lemma VersionsSize(v: Version)
    ensures |Versions(v)| == if v < 7 then 0 else 36
  {
    hide Interval, Product;
    if v >= 7 {
      var far, near := Interval(Size(v) - 11, Size(v) - 8), Interval(0, 6);
      ProductSize(far, near);
      ProductSize(near, far);
      UnionSize(Product(far, near), Product(near, far));
    }
  }

  /** Where the bands of the inner alignment centres lie. */
  lemma BandRange(v: Version, hi: nat, x: int)
    requires v >= 2 && 1 <= hi <= NumAlign(v)
    ensures InSomeBand(AlignPositions(v), hi, x) ==>
              16 <= x <= (if hi == NumAlign(v) then Size(v) - 5 else Size(v) - 17)
  {
    var pos, a := AlignPositions(v), NumAlign(v);
    AlignPositionsApart(v);
    hide AlignPositions, NumAlign;
    if InSomeBand(pos, hi, x) {
      var i :| 1 <= i < hi && InBand(pos, i, x);
      assert pos[i] - pos[0] >= 12;
      assert i < a - 1 ==> pos[a - 1] - pos[i] >= 12;
    }
  }

  lemma AlignsSize(v: Version)
    requires v >= 2
    ensures |Aligns(v)| == (25 * NumAlign(v) - 10) * NumAlign(v) - 55
  {
    hide Bands, AlignRectangles, AlignPositions, Apart, AlignStep, NumAlign;
    AlignPositionsApart(v);
    var pos, a := AlignPositions(v), NumAlign(v);
    var outer, inner := Bands(pos, 1, a), Bands(pos, 1, a - 1);
    BandsSize(pos, 1, a);
    BandsSize(pos, 1, a - 1);
    forall x | x in outer ensures x >= 16 {
      InBands(pos, 1, a, x);
      BandRange(v, a, x);
    }
    forall x | x in inner ensures x >= 16 {
      InBands(pos, 1, a - 1, x);
      BandRange(v, a - 1, x);
    }
    AlignRectanglesSize(outer, inner, a);
  }

  lemma AlignRectanglesSize(outer: set<int>, inner: set<int>, a: int)
    requires |outer| == 5 * (a - 1) && |inner| == 5 * (a - 2)
    requires forall x :: x in outer ==> x >= 16
    requires forall x :: x in inner ==> x >= 16
    ensures |AlignRectangles(outer, inner)| == (25 * a - 10) * a - 55
  {
    hide Product;
    var four := {4, 5, 7, 8};
    assert |four| == 4;
    ProductSize(outer, outer);
    ProductSize(four, inner);
    ProductSize(inner, four);
    UnionSize(Product(four, inner), Product(inner, four));
    UnionSize(Product(outer, outer), Product(four, inner) + Product(inner, four));
    assert (5 * (a - 1)) * (5 * (a - 1)) == 25 * (a * a) - 50 * a + 25;
    assert (25 * a - 10) * a == 25 * (a * a) - 10 * a;
  }

  // ----- the rectangles are the function modules

  function FunctionSet(v: Version): set<Place>
  {
    (Corners(Size(v)) + Lines(Size(v))) + (Aligns(v) + Versions(v))
  }

  predicate InCorners(n: nat, p: Place)
  {
    || (0 <= p.x < 9 && 0 <= p.y < 9) || (n - 8 <= p.x < n && 0 <= p.y < 9) || (0 <= p.x < 9 && n - 8 <= p.y < n)
  }

  predicate InLines(n: nat, p: Place)
  {
    (p.y == 6 && 9 <= p.x < n - 8) || (p.x == 6 && 9 <= p.y < n - 8)
  }

  lemma CornerAndLineMembers(n: nat, p: Place)
    requires n >= 21
    ensures p in Corners(n) <==> InCorners(n, p)
    ensures p in Lines(n) <==> InLines(n, p)
  {
    hide Product, Interval;
  }

  lemma VersionMembers(v: Version, p: Place)
    ensures p in Versions(v) <==> InVersion(v, p)
  {
    hide Product, Interval;
  }

  /** A coordinate in the band of one of the alignment centres number 1 up to hi. */
  predicate InSomeBand(pos: seq<int>, hi: nat, x: int)
    requires hi <= |pos|
  {
    exists i :: 1 <= i < hi && InBand(pos, i, x)
  }

  predicate BesideLine(x: int)
  {
    4 <= x <= 8 && x != 6
  }

  predicate InAlignRectangles(pos: seq<int>, p: Place)
    requires |pos| >= 2
  {
    var a := |pos|;
    || (InSomeBand(pos, a, p.x) && InSomeBand(pos, a, p.y))
    || (BesideLine(p.x) && InSomeBand(pos, a - 1, p.y))
    || (InSomeBand(pos, a - 1, p.x) && BesideLine(p.y))
  }

  lemma AlignRectangleMembers(v: Version, p: Place)
    requires v >= 2 && NumAlign(v) >= 2
    ensures p in Aligns(v) <==> InAlignRectangles(AlignPositions(v), p)
  {
    var pos, a := AlignPositions(v), NumAlign(v);
    hide Bands, Product, AlignPositions, NumAlign;
    InBands(pos, 1, a, p.x);
    InBands(pos, 1, a, p.y);
    InBands(pos, 1, a - 1, p.x);
    InBands(pos, 1, a - 1, p.y);
    hide InBand;
  }

  /** An alignment rectangle lies off the corners, the lines and the version information. */
  lemma AlignMembersApart(v: Version, p: Place)
    requires p in Aligns(v)
    ensures !InCorners(Size(v), p) && !InLines(Size(v), p) && !InVersion(v, p) && Inside(p, Size(v))
  {
    AlignPositionsApart(v);
    AlignRectangleMembers(v, p);
    var pos, a := AlignPositions(v), NumAlign(v);
    hide Aligns, AlignPositions, NumAlign, Apart, InSomeBand;
    BandRange(v, a, p.x);
    BandRange(v, a, p.y);
    BandRange(v, a - 1, p.x);
    BandRange(v, a - 1, p.y);
  }

  lemma CornersOffLinesAndVersion(v: Version, p: Place)
    requires p in Corners(Size(v))
    ensures p !in Lines(Size(v)) && p !in Versions(v)
  {
    CornerAndLineMembers(Size(v), p);
    VersionMembers(v, p);
    hide Corners, Lines, Versions;
  }

  lemma LinesOffVersion(v: Version, p: Place)
    requires p in Lines(Size(v))
    ensures p !in Versions(v)
  {
    CornerAndLineMembers(Size(v), p);
    VersionMembers(v, p);
    hide Corners, Lines, Versions;
  }

  lemma AlignsApart(v: Version, p: Place)
    requires p in Aligns(v)
    ensures p !in Corners(Size(v)) && p !in Lines(Size(v)) && p !in Versions(v)
  {
    hide Corners, Lines, Aligns, Versions;
    AlignMembersApart(v, p);
    CornerAndLineMembers(Size(v), p);
    VersionMembers(v, p);
  }

  lemma FunctionSetSize(v: Version)
    ensures |FunctionSet(v)| == Size(v) * Size(v) - NumRawDataModules(v)
  {
    var n := Size(v);
    CornersSize(n);
    LinesSize(n);
    VersionsSize(v);
    assert v == 1 ==> Aligns(v) == {};
    if v >= 2 {
      AlignsSize(v);
    }
    FunctionSetUnion(v);
    RawModulesFormula(v);
    hide Corners, Lines, Aligns, Versions, NumAlign, NumRawDataModules, FunctionSet;
  }

  lemma RawModulesFormula(v: Version)
    ensures var n, a := Size(v), NumAlign(v);
            NumRawDataModules(v) == n * n - 225 - 2 * (n - 17) -
                                    (if v == 1 then 0 else (25 * a - 10) * a - 55) - (if v >= 7 then 36 else 0)
  {
    hide NumAlign;
    var n := Size(v);
    assert n * n == 16 * (v * v) + 136 * v + 289;
    assert (16 * v + 128) * v == 16 * (v * v) + 128 * v;
  }

  lemma FunctionSetUnion(v: Version)
    ensures |FunctionSet(v)| == |Corners(Size(v))| + |Lines(Size(v))| + |Aligns(v)| + |Versions(v)|
  {
    hide Corners, Lines, Aligns, Versions;
    var n := Size(v);
    forall p | p in Corners(n) ensures p !in Lines(n) && p !in Versions(v) {
      CornersOffLinesAndVersion(v, p);
    }
    forall p | p in Lines(n) ensures p !in Versions(v) {
      LinesOffVersion(v, p);
    }
    forall p | p in Aligns(v) ensures p !in Corners(n) && p !in Lines(n) && p !in Versions(v) {
      AlignsApart(v, p);
    }
    UnionSize(Corners(n), Lines(n));
    UnionSize(Aligns(v), Versions(v));
    UnionSize(Corners(n) + Lines(n), Aligns(v) + Versions(v));
  }

  // ----- membership

  /** The alignment part of the map, by rectangles. */
  lemma AlignMembers(v: Version, p: Place)
    requires v >= 2 && !InCorners(Size(v), p) && !InTiming(p)
    ensures p in Aligns(v) <==> InAlign(AlignPositions(v), p, NumAlign(v), 0)
  {
    hide Aligns, AlignPositions, NumAlign, InAlignRectangles, InAlign, Apart;
    AlignPositionsApart(v);
    AlignRectangleMembers(v, p);
    if InAlignRectangles(AlignPositions(v), p) {
      AlignFromRectangle(AlignPositions(v), p);
    }
    if InAlign(AlignPositions(v), p, NumAlign(v), 0) {
      RectangleFromAlign(Size(v), AlignPositions(v), p);
    }
  }

  lemma RectangleFromAlign(n: nat, pos: seq<int>, p: Place)
    requires |pos| >= 2 && pos[0] == 6 && pos[|pos| - 1] == n - 7
    requires !InCorners(n, p) && !InTiming(p)
    requires InAlign(pos, p, |pos|, 0)
    ensures InAlignRectangles(pos, p)
  {
    var a := |pos|;
    var k, l :| 0 <= k < a && 0 <= l < a && !FinderCorner(k, l, a) && Distance(p, pos[k], pos[l]) <= 2;
    assert InBand(pos, k, p.x) && InBand(pos, l, p.y);
    assert k >= 1 ==> InSomeBand(pos, a, p.x);
    assert 1 <= k < a - 1 ==> InSomeBand(pos, a - 1, p.x);
    assert l >= 1 ==> InSomeBand(pos, a, p.y);
    assert 1 <= l < a - 1 ==> InSomeBand(pos, a - 1, p.y);
  }

  lemma BandGivesCentre(pos: seq<int>, hi: nat, x: int) returns (k: nat)
    requires hi <= |pos| && |pos| >= 1 && pos[0] == 6
    requires InSomeBand(pos, hi, x) || BesideLine(x)
    ensures k < |pos| && Abs(x - pos[k]) <= 2
    ensures InSomeBand(pos, hi, x) ==> 1 <= k < hi
    ensures !InSomeBand(pos, hi, x) ==> k == 0
  {
    if InSomeBand(pos, hi, x) {
      k :| 1 <= k < hi && InBand(pos, k, x);
    } else {
      k := 0;
    }
  }

  lemma AlignFromRectangle(pos: seq<int>, p: Place)
    requires |pos| >= 2 && pos[0] == 6
    requires InAlignRectangles(pos, p)
    ensures InAlign(pos, p, |pos|, 0)
  {
    var a := |pos|;
    var hiX := if InSomeBand(pos, a, p.x) && InSomeBand(pos, a, p.y) then a else a - 1;
    var k := BandGivesCentre(pos, hiX, p.x);
    var l := BandGivesCentre(pos, hiX, p.y);
    hide InSomeBand, BesideLine;
    assert !FinderCorner(k, l, a) && Distance(p, pos[k], pos[l]) <= 2;
  }

  /** Finders, timing lines and format information fill exactly the corners and the lines between them. */
  lemma FixedPatterns(n: nat, p: Place)
    requires n >= 21 && Inside(p, n)
    ensures InTiming(p) || InFinders(n, p) || InFormat(n, p) <==> InCorners(n, p) || InLines(n, p)
  {
  }

  /** The modules in the rectangles are exactly the function modules. */
  lemma FunctionSetMembers(v: Version, p: Place)
    ensures p in FunctionSet(v) <==> Inside(p, Size(v)) && IsFunction(v, p)
  {
    var n := Size(v);
    assert n >= 21;
    hide Corners, Lines, Aligns, Versions, AlignPositions, NumAlign, Size, InAlign;
    hide InVersion, InTiming, InFinders, InFormat, InCorners, InLines, Inside;
    InUnion(Corners(n), Lines(n), Aligns(v), Versions(v), p);
    CornerAndLineMembers(n, p);
    VersionMembers(v, p);
    RectanglesInside(v, p);
    AlignedMembers(v, p);
    if Inside(p, n) {
      FixedPatterns(n, p);
    }
  }

  lemma InUnion<T>(a: set<T>, b: set<T>, c: set<T>, d: set<T>, x: T)
    ensures x in (a + b) + (c + d) <==> x in a || x in b || x in c || x in d
  {
  }

  lemma RectanglesInside(v: Version, p: Place)
    ensures InCorners(Size(v), p) || InLines(Size(v), p) || InVersion(v, p) ==> Inside(p, Size(v))
    ensures InTiming(p) && Inside(p, Size(v)) ==> InCorners(Size(v), p) || InLines(Size(v), p)
  {
  }

  lemma AlignedMembers(v: Version, p: Place)
    ensures p in Aligns(v) ==> Inside(p, Size(v)) && InAlign(AlignPositions(v), p, NumAlign(v), 0)
    ensures InAlign(AlignPositions(v), p, NumAlign(v), 0) ==>
              Inside(p, Size(v)) && (p in Aligns(v) || InCorners(Size(v), p) || InTiming(p))
  {
    assert v == 1 ==> Aligns(v) == {} && AlignPositions(v) == [];
    assert v == 1 ==> !InAlign(AlignPositions(v), p, NumAlign(v), 0);
    hide Aligns, AlignPositions, NumAlign, InCorners, InAlign;
    if p in Aligns(v) {
      AlignMembersApart(v, p);
      AlignsNotTiming(v, p);
      AlignMembers(v, p);
    }
    if InAlign(AlignPositions(v), p, NumAlign(v), 0) {
      AlignInside(v, p);
      if !InCorners(Size(v), p) && !InTiming(p) {
        AlignMembers(v, p);
      }
    }
  }

  lemma AlignsNotTiming(v: Version, p: Place)
    requires p in Aligns(v)
    ensures !InTiming(p)
  {
    AlignMembersApart(v, p);
    hide Aligns;
  }

  lemma AlignInside(v: Version, p: Place)
    requires v >= 2 && InAlign(AlignPositions(v), p, NumAlign(v), 0)
    ensures Inside(p, Size(v))
  {
    AlignPositionsApart(v);
    var pos, a := AlignPositions(v), NumAlign(v);
    hide AlignPositions, NumAlign;
    var k, l :| 0 <= k < a && 0 <= l < a && Distance(p, pos[k], pos[l]) <= 2;
    assert k > 0 ==> pos[k] - pos[0] >= 12;
    assert l > 0 ==> pos[l] - pos[0] >= 12;
    assert k < a - 1 ==> pos[a - 1] - pos[k] >= 12;
    assert l < a - 1 ==> pos[a - 1] - pos[l] >= 12;
  }

  // ----- the modules left for data

  /** The scan finds exactly as many modules for codeword bits as the version's table entry says. */
  lemma DataPlacesCount(v: Version)
    ensures Distinct(AllDataPlaces(FunctionMap(v)))
    ensures |AllDataPlaces(FunctionMap(v))| == NumRawDataModules(v)
  {
    var n, f := Size(v), FunctionMap(v);
    forall y | 0 <= y < n ensures f[y][6] {
      assert At(f, Place(6, y)) == IsFunction(v, Place(6, y));
    }
    ScanCoversDataOnce(f);
    FunctionSetSize(v);
    DataPlacesAreTheRest(v, AllDataPlaces(f), FunctionSet(v));
  }

  lemma DataPlacesAreTheRest(v: Version, data: seq<Place>, functions: set<Place>)
    requires Distinct(data)
    requires forall p :: p in data <==> Inside(p, Size(v)) && !At(FunctionMap(v), p)
    requires functions == FunctionSet(v)
    ensures |data| == Size(v) * Size(v) - |functions|
  {
    hide FunctionSet, IsFunction, Distinct, Product, Interval, FunctionMap, Size;
    var side := Interval(0, Size(v));
    var all := Product(side, side);
    ProductSize(side, side);
    forall p ensures p in functions ==> p in all {
      FunctionSetMembers(v, p);
    }
    forall p ensures p in data <==> p in all - functions {
      FunctionSetMembers(v, p);
    }
    DistinctSize(data, all - functions);
  }
}
