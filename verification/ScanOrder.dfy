/** The order of the zigzag scan: strips of two columns from right to left, up and down by turns, column 6 left out. */
module ScanOrder {
  import opened QrTables
  import opened Zigzag
  import opened FunctionModules

  /** The right column of the strip that a column belongs to: even columns right of the timing line, odd ones left of it. */
  function StripOf(x: int): int
  {
    if x > 6 then x + x % 2 else x + 1 - x % 2
  }

  /** The strips right of the timing line go up when their right column is divisible by 4, of those left of it the one at 3. */
  predicate GoesUp(strip: int)
  {
    if strip > 6 then strip % 4 == 0 else strip == 3
  }

  /** Module p comes before module q. */
  predicate Earlier(p: Place, q: Place)
  {
    var a, b := StripOf(p.x), StripOf(q.x);
    || a > b
    || (a == b && p.y == q.y && p.x > q.x)
    || (a == b && p.y != q.y && (GoesUp(a) <==> p.y > q.y))
  }

  predicate InOrder(s: seq<Place>)
  {
    forall i, j :: 0 <= i < j < |s| ==> Earlier(s[i], s[j])
  }

  lemma StripByPair(n: nat, p: Place)
    requires ScanSize(n) && n % 4 == 1 && Inside(p, n) && p.x != 6
    ensures StripOf(p.x) == RightColumn(n, PairOf(n, p))
    ensures GoesUp(StripOf(p.x)) <==> Upward(StripOf(p.x))
  {
    StripIsRight(n, p);
    hide RightColumn, PairOf;
    if p.x > 6 {
      UpRight(StripOf(p.x));
    }
  }

  lemma StripIsRight(n: nat, p: Place)
    requires ScanSize(n) && n % 4 == 1 && Inside(p, n) && p.x != 6
    ensures StripOf(p.x) == RightColumn(n, PairOf(n, p))
  {
    var c := PairOf(n, p);
    if p.x > 6 {
      assert n - 1 - 2 * c == p.x + p.x % 2;
    } else {
      assert n - 2 - 2 * c == p.x + 1 - p.x % 2;
    }
  }

  lemma UpRight(strip: nat)
    requires strip % 2 == 0
    ensures Upward(strip) <==> strip % 4 == 0
  {
    var q := strip / 4;
    assert strip == 4 * q || strip == 4 * q + 2;
    assert (strip + 1) / 2 == strip / 2;
  }

  lemma StripsDescend(n: nat, c: nat, d: nat)
    requires ScanSize(n) && c < d && 2 * d < n - 1
    ensures RightColumn(n, c) > RightColumn(n, d)
  {
  }

  /** A module that the scan reaches at a smaller count comes before. */
  lemma SmallerIsEarlier(n: nat, p: Place, q: Place)
    requires ScanSize(n) && n % 4 == 1 && Inside(p, n) && Inside(q, n) && p.x != 6 && q.x != 6
    requires PairOf(n, p) < PairOf(n, q) || (PairOf(n, p) == PairOf(n, q) && VertOf(n, p) < VertOf(n, q))
    ensures Earlier(p, q)
  {
    StripByPair(n, p);
    StripByPair(n, q);
    PlaceOfReaches(n, p);
    PlaceOfReaches(n, q);
    if PairOf(n, p) < PairOf(n, q) {
      StripsDescend(n, PairOf(n, p), PairOf(n, q));
    }
    hide PairOf, RightColumn, StripOf, GoesUp;
  }

  lemma VisitInOrder(f: Grid, c: nat, vert: nat)
    requires ScanSize(|f|) && |f| % 4 == 1 && Square(f, |f|) && 2 * c < |f| - 1 && vert < |f|
    ensures InOrder(Visit(f, c, vert))
  {
    var n := |f|;
    var p, q := PlaceOf(n, c, vert, 0), PlaceOf(n, c, vert, 1);
    PlaceOfInverse(n, c, vert, 0);
    PlaceOfInverse(n, c, vert, 1);
    StripByPair(n, p);
    StripByPair(n, q);
    assert p.y == q.y && p.x > q.x;
    hide PlaceOf, PairOf, StripOf;
  }

  lemma {:induction false} DataPlacesInOrder(f: Grid, c: nat, vert: nat)
    requires ScanSize(|f|) && |f| % 4 == 1 && Square(f, |f|) && vert <= |f|
    requires 2 * c < |f| - 1 || (2 * c == |f| - 1 && vert == 0)
    ensures InOrder(DataPlaces(f, c, vert))
    decreases c, vert
  {
    var n := |f|;
    if vert > 0 {
      DataPlacesInOrder(f, c, vert - 1);
      VisitInOrder(f, c, vert - 1);
      DataPlacesExact(f, c, vert - 1);
      VisitExact(f, c, vert - 1);
      var before, visit := DataPlaces(f, c, vert - 1), Visit(f, c, vert - 1);
      hide PairOf, VertOf, PlaceOf, Earlier, Visit, At;
      forall p, q | p in before && q in visit ensures Earlier(p, q) {
        SmallerIsEarlier(n, p, q);
      }
      BothInOrder(before, visit);
    } else if c > 0 {
      DataPlacesInOrder(f, c - 1, n);
    }
  }

  lemma BothInOrder(a: seq<Place>, b: seq<Place>)
    requires InOrder(a) && InOrder(b) && forall p, q :: p in a && q in b ==> Earlier(p, q)
    ensures InOrder(a + b)
  {
    hide Earlier;
  }

  /** The codeword bits of a version go into its modules in this order. */
  lemma ScanInOrder(v: Version)
    ensures InOrder(AllDataPlaces(FunctionMap(v)))
  {
    DataPlacesInOrder(FunctionMap(v), (Size(v) - 1) / 2, 0);
  }
}
