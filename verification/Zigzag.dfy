/**
 The zigzag scan that places the codeword bits in the modules of a QR code (section 7.7 of
 ISO/IEC 18004:2015), over any map of function modules.
 */
module Zigzag {
  import opened Sets

  // ----- grids

  /** Rows of modules; true is dark. */
  type Grid = seq<seq<bool>>

  datatype Place = Place(x: int, y: int)

  predicate Square(g: Grid, n: nat)
  {
    |g| == n && forall y :: 0 <= y < n ==> |g[y]| == n
  }

  predicate Inside(p: Place, n: nat)
  {
    0 <= p.x < n && 0 <= p.y < n
  }

  function At(g: Grid, p: Place): bool
    requires Square(g, |g|) && Inside(p, |g|)
  {
    g[p.y][p.x]
  }

  function Put(g: Grid, p: Place, b: bool): (h: Grid)
    requires Square(g, |g|) && Inside(p, |g|)
    ensures |h| == |g| && Square(h, |h|)
    ensures forall q :: Inside(q, |g|) ==> At(h, q) == if q == p then b else At(g, q)
  {
    g[p.y := g[p.y][p.x := b]]
  }

  lemma SameGrid(g: Grid, h: Grid)
    requires |g| == |h| && Square(g, |g|) && Square(h, |h|)
    requires forall p :: Inside(p, |g|) ==> At(g, p) == At(h, p)
    ensures g == h
  {
    forall y | 0 <= y < |g| ensures g[y] == h[y] {
      forall x | 0 <= x < |g| ensures g[y][x] == h[y][x] {
        assert At(g, Place(x, y)) == At(h, Place(x, y));
      }
    }
  }

  // ----- the scan

  predicate ScanSize(n: nat)
  {
    n >= 9 && n % 2 == 1
  }

  /** The right column of column pair c: the pairs skip column 6. */
  function RightColumn(n: nat, c: nat): int
    requires ScanSize(n) && 2 * c < n - 1
  {
    if n - 1 - 2 * c == 6 then 5 else if n - 1 - 2 * c > 6 then n - 1 - 2 * c else n - 2 - 2 * c
  }

  predicate Upward(right: nat)
  {
    (right + 1) / 2 % 2 == 0
  }

  /** The module that the scan visits in column pair c, at vertical count vert, on side j. */
  function PlaceOf(n: nat, c: nat, vert: nat, j: nat): Place
    requires ScanSize(n) && 2 * c < n - 1 && vert < n && j < 2
  {
    var right := RightColumn(n, c);
    Place(right - j, if Upward(right) then n - 1 - vert else vert)
  }

  /** The column pair and the vertical count at which the scan visits a module. */
  function PairOf(n: nat, p: Place): int
  {
    if p.x >= 7 then (n - 1 - p.x) / 2 else (n - 2 - p.x) / 2
  }

  function VertOf(n: nat, p: Place): int
    requires ScanSize(n) && Inside(p, n) && p.x != 6
  {
    if Upward(RightColumn(n, PairOf(n, p))) then n - 1 - p.y else p.y
  }

  /** The scan visits p before it reaches vertical count vert of column pair c. */
  predicate Before(n: nat, p: Place, c: nat, vert: nat)
    requires ScanSize(n) && Inside(p, n) && p.x != 6
  {
    PairOf(n, p) < c || (PairOf(n, p) == c && VertOf(n, p) < vert)
  }

  lemma PlaceOfInverse(n: nat, c: nat, vert: nat, j: nat)
    requires ScanSize(n) && 2 * c < n - 1 && vert < n && j < 2
    ensures var p := PlaceOf(n, c, vert, j);
            Inside(p, n) && p.x != 6 && PairOf(n, p) == c && VertOf(n, p) == vert
  {
    var p := PlaceOf(n, c, vert, j);
    assert PairOf(n, p) == c;
    hide Upward;
  }

  lemma PlaceOfReaches(n: nat, p: Place)
    requires ScanSize(n) && Inside(p, n) && p.x != 6
    ensures 0 <= PairOf(n, p) && 2 * PairOf(n, p) < n - 1 && 0 <= VertOf(n, p) < n
    ensures p == PlaceOf(n, PairOf(n, p), VertOf(n, p), 0) || p == PlaceOf(n, PairOf(n, p), VertOf(n, p), 1)
  {
    var right := RightColumn(n, PairOf(n, p));
    assert right == p.x || right == p.x + 1;
    hide Upward;
  }

  /** The modules, other than function modules, among the two that the scan visits at (c, vert). */
  function Visit(f: Grid, c: nat, vert: nat): (s: seq<Place>)
    requires ScanSize(|f|) && Square(f, |f|) && 2 * c < |f| - 1 && vert < |f|
  {
    var p, q := PlaceOf(|f|, c, vert, 0), PlaceOf(|f|, c, vert, 1);
    PlaceOfInverse(|f|, c, vert, 0);
    PlaceOfInverse(|f|, c, vert, 1);
    (if At(f, p) then [] else [p]) + (if At(f, q) then [] else [q])
  }

  /** The modules that carry data, in scan order, up to vertical count vert of column pair c. */
  function DataPlaces(f: Grid, c: nat, vert: nat): (s: seq<Place>)
    requires ScanSize(|f|) && Square(f, |f|) && vert <= |f|
    requires 2 * c < |f| - 1 || (2 * c == |f| - 1 && vert == 0)
    decreases c, vert
  {
    if vert > 0 then DataPlaces(f, c, vert - 1) + Visit(f, c, vert - 1)
    else if c > 0 then DataPlaces(f, c - 1, |f|)
    else []
  }

  function AllDataPlaces(f: Grid): (s: seq<Place>)
    requires ScanSize(|f|) && Square(f, |f|)
  {
    DataPlaces(f, (|f| - 1) / 2, 0)
  }

  /** The scan has visited exactly the data modules before this point, each of them once. */
  lemma {:induction false} DataPlacesExact(f: Grid, c: nat, vert: nat)
    requires ScanSize(|f|) && Square(f, |f|) && vert <= |f|
    requires 2 * c < |f| - 1 || (2 * c == |f| - 1 && vert == 0)
    ensures Distinct(DataPlaces(f, c, vert))
    ensures forall p :: p in DataPlaces(f, c, vert) <==>
              Inside(p, |f|) && p.x != 6 && !At(f, p) && Before(|f|, p, c, vert)
    decreases c, vert
  {
    var n := |f|;
    hide PairOf, VertOf, PlaceOf;
    if vert > 0 {
      DataPlacesExact(f, c, vert - 1);
      VisitExact(f, c, vert - 1);
    } else if c > 0 {
      DataPlacesExact(f, c - 1, n);
      forall p | Inside(p, n) && p.x != 6 ensures Before(n, p, c, 0) <==> Before(n, p, c - 1, n) {
        PlaceOfReaches(n, p);
      }
    } else {
      forall p | Inside(p, n) && p.x != 6 ensures !Before(n, p, 0, 0) {
        PlaceOfReaches(n, p);
      }
    }
  }

  lemma VisitExact(f: Grid, c: nat, vert: nat)
    requires ScanSize(|f|) && Square(f, |f|) && 2 * c < |f| - 1 && vert < |f|
    ensures Distinct(Visit(f, c, vert))
    ensures forall p :: p in Visit(f, c, vert) <==>
              Inside(p, |f|) && p.x != 6 && !At(f, p) && PairOf(|f|, p) == c && VertOf(|f|, p) == vert
  {
    var n := |f|;
    PlaceOfInverse(n, c, vert, 0);
    PlaceOfInverse(n, c, vert, 1);
    assert PlaceOf(n, c, vert, 0).x != PlaceOf(n, c, vert, 1).x;
    hide PairOf, VertOf, PlaceOf;
    forall p | Inside(p, n) && p.x != 6 && !At(f, p) && PairOf(n, p) == c && VertOf(n, p) == vert
      ensures p in Visit(f, c, vert)
    {
      PlaceOfReaches(n, p);
    }
  }

  /** With column 6 all function modules, the scan visits every data module exactly once. */
  lemma ScanCoversDataOnce(f: Grid)
    requires ScanSize(|f|) && Square(f, |f|)
    requires forall y :: 0 <= y < |f| ==> f[y][6]
    ensures Distinct(AllDataPlaces(f))
    ensures forall p :: p in AllDataPlaces(f) <==> Inside(p, |f|) && !At(f, p)
  {
    var n := |f|;
    DataPlacesExact(f, (n - 1) / 2, 0);
    forall p | Inside(p, n) && !At(f, p) ensures p.x != 6 && Before(n, p, (n - 1) / 2, 0) {
      assert f[p.y][6];
      PlaceOfReaches(n, p);
    }
  }
}
