/** What the eight masks look like: one period of each, drawn as it is in Table 10 of ISO/IEC 18004:2015. */
module MaskPatterns {
  import opened QrSymbol

  /** One period of a mask: '#' marks the modules that are inverted. The top left corner is module (0, 0). */
  function Picture(mask: nat): (rows: seq<string>)
    requires mask < 8
    ensures rows != [] && rows[0] != "" && forall y :: 0 <= y < |rows| ==> |rows[y]| == |rows[0]|
  {
    match mask
    case 0 => ["#.",
               ".#"]
    case 1 => ["#",
               "."]
    case 2 => ["#.."]
    case 3 => ["#..",
               "..#",
               ".#."]
    case 4 => ["###...",
               "###...",
               "...###",
               "...###"]
    case 5 => ["######",
               "#.....",
               "#..#..",
               "#.#.#.",
               "#..#..",
               "#....."]
    case 6 => ["######",
               "###...",
               "##.##.",
               "#.#.#.",
               "#.##.#",
               "#...##"]
    case _ => ["#.#.#.",
               "...###",
               "#...##",
               ".#.#.#",
               "###...",
               ".###.."]
  }

  /** The picture, repeated in both directions. */
  predicate Pictured(mask: nat, x: nat, y: nat)
    requires mask < 8
  {
    var rows := Picture(mask);
    rows[y % |rows|][x % |rows[0]|] == '#'
  }

  // ----- the masks repeat

  lemma Expanded(x: int, y: int, a: int, b: int, c: int, d: int)
    requires x == 6 * a + b && y == 6 * c + d
    ensures x * y == 6 * (a * y + b * c) + b * d
  {
    assert (6 * a + b) * y == 6 * (a * y) + b * y;
    assert b * (6 * c + d) == 6 * (b * c) + b * d;
  }

  lemma TwoTimes(q: int, r: int)
    requires 0 <= r < 2
    ensures (2 * q + r) % 2 == r
  {
  }

  lemma ThreeTimes(q: int, r: int)
    requires 0 <= r < 3
    ensures (3 * q + r) % 3 == r
  {
  }

  lemma SixTimes(q: int, r: int)
    ensures (6 * q + r) % 2 == r % 2 && (6 * q + r) % 3 == r % 3
  {
    var a, b, c, d := r / 2, r % 2, r / 3, r % 3;
    assert 6 * q + r == 2 * (3 * q + a) + b && 6 * q + r == 3 * (2 * q + c) + d;
    TwoTimes(3 * q + a, b);
    ThreeTimes(2 * q + c, d);
  }

  /** Products modulo 2 and 3 depend on the factors modulo 6 only. */
  lemma ProductResidue(x: nat, y: nat)
    ensures x * y % 2 == (x % 6) * (y % 6) % 2
    ensures x * y % 3 == (x % 6) * (y % 6) % 3
  {
    var a, b, c, d := x / 6, x % 6, y / 6, y % 6;
    Expanded(x, y, a, b, c, d);
    SixTimes(a * y + b * c, b * d);
  }

  lemma PictureOf0(x: nat, y: nat)
    ensures Invert(0, x, y) <==> Pictured(0, x, y)
  {
    assert y % 2 == 0 || y % 2 == 1;
    assert x % 2 == 0 || x % 2 == 1;
  }

  lemma PictureOf1(x: nat, y: nat)
    ensures Invert(1, x, y) <==> Pictured(1, x, y)
  {
    assert y % 2 == 0 || y % 2 == 1;
  }

  lemma PictureOf2(x: nat, y: nat)
    ensures Invert(2, x, y) <==> Pictured(2, x, y)
  {
    assert x % 3 == 0 || x % 3 == 1 || x % 3 == 2;
  }

  lemma PictureOf3(x: nat, y: nat)
    ensures Invert(3, x, y) <==> Pictured(3, x, y)
  {
    var a, b := x % 3, y % 3;
    assert (x + y) % 3 == (a + b) % 3;
    assert a == 0 || a == 1 || a == 2;
    assert b == 0 || b == 1 || b == 2;
  }

  lemma PictureOf4(x: nat, y: nat)
    ensures Invert(4, x, y) <==> Pictured(4, x, y)
  {
    hide Picture, Invert;
    InvertOfBlocks(x, y);
    Thirds(x);
    Halves(y);
    Blocks(x % 6, y % 4);
    FourBySix();
  }

  lemma InvertOfBlocks(x: nat, y: nat)
    ensures Invert(4, x, y) <==> (x / 3) % 2 == (y / 2) % 2
  {
  }

  lemma Thirds(x: nat)
    ensures (x / 3) % 2 == (x % 6) / 3
  {
    var q, r := x / 6, x % 6;
    assert x == 6 * q + r;
    assert x / 3 == 2 * q + r / 3;
  }

  lemma Halves(y: nat)
    ensures (y / 2) % 2 == (y % 4) / 2
  {
    var q, r := y / 4, y % 4;
    assert y == 4 * q + r;
    assert y / 2 == 2 * q + r / 2;
  }

  lemma FourBySix()
    ensures |Picture(4)| == 4 && |Picture(4)[0]| == 6
  {
  }

  lemma Blocks(a: nat, b: nat)
    requires a < 6 && b < 4
    ensures Picture(4)[b][a] == '#' <==> a / 3 == b / 2
  {
  }

  /** The three masks that multiply, on one period. */
  lemma ProductPicture(mask: nat, a: nat, b: nat)
    requires 5 <= mask < 8 && a < 6 && b < 6
    ensures Invert(mask, a, b) <==> Picture(mask)[b][a] == '#'
  {
    match b
    case 0 => ProductRow0(mask, a);
    case 1 => ProductRow1(mask, a);
    case 2 => ProductRow2(mask, a);
    case 3 => ProductRow3(mask, a);
    case 4 => ProductRow4(mask, a);
    case 5 => ProductRow5(mask, a);
  }

  lemma ProductRow0(mask: nat, a: nat)
    requires 5 <= mask < 8 && a < 6
    ensures Invert(mask, a, 0) <==> Picture(mask)[0][a] == '#'
  {
    var zero := a * 0;
    assert zero == 0 && (a + 0) % 2 == a % 2;
    match mask
    case 5 => assert Invert(mask, a, 0) == (zero % 2 + zero % 3 == 0);
    case 6 => assert Invert(mask, a, 0) == ((zero % 2 + zero % 3) % 2 == 0);
    case 7 => assert Invert(mask, a, 0) == ((a % 2 + zero % 3) % 2 == 0);
  }

  lemma ProductRow1(mask: nat, a: nat)
    requires 5 <= mask < 8 && a < 6
    ensures Invert(mask, a, 1) <==> Picture(mask)[1][a] == '#'
  {
    match a
    case 0 => case 1 => case 2 => case 3 => case 4 => case 5 =>
  }

  lemma ProductRow2(mask: nat, a: nat)
    requires 5 <= mask < 8 && a < 6
    ensures Invert(mask, a, 2) <==> Picture(mask)[2][a] == '#'
  {
    match a
    case 0 => case 1 => case 2 => case 3 => case 4 => case 5 =>
  }

  lemma ProductRow3(mask: nat, a: nat)
    requires 5 <= mask < 8 && a < 6
    ensures Invert(mask, a, 3) <==> Picture(mask)[3][a] == '#'
  {
    match a
    case 0 => case 1 => case 2 => case 3 => case 4 => case 5 =>
  }

  lemma ProductRow4(mask: nat, a: nat)
    requires 5 <= mask < 8 && a < 6
    ensures Invert(mask, a, 4) <==> Picture(mask)[4][a] == '#'
  {
    match a
    case 0 => case 1 => case 2 => case 3 => case 4 => case 5 =>
  }

  lemma ProductRow5(mask: nat, a: nat)
    requires 5 <= mask < 8 && a < 6
    ensures Invert(mask, a, 5) <==> Picture(mask)[5][a] == '#'
  {
    match a
    case 0 => case 1 => case 2 => case 3 => case 4 => case 5 =>
  }

  lemma InvertOfResidues(mask: nat, x: nat, y: nat)
    requires 5 <= mask < 8
    ensures Invert(mask, x, y) == Invert(mask, x % 6, y % 6)
  {
    hide Invert;
    ProductResidue(x, y);
    SumParity(x, y);
    SameResidues(mask, x, y, x % 6, y % 6);
  }

  lemma SumParity(x: nat, y: nat)
    ensures (x + y) % 2 == (x % 6 + y % 6) % 2
  {
  }

  lemma SameResidues(mask: nat, x: nat, y: nat, a: nat, b: nat)
    requires 5 <= mask < 8
    requires x * y % 2 == a * b % 2 && x * y % 3 == a * b % 3 && (x + y) % 2 == (a + b) % 2
    ensures Invert(mask, x, y) == Invert(mask, a, b)
  {
  }

  lemma SixBySix(mask: nat)
    requires 5 <= mask < 8
    ensures |Picture(mask)| == 6 && |Picture(mask)[0]| == 6
  {
  }

  lemma PictureOfProduct(mask: nat, x: nat, y: nat)
    requires 5 <= mask < 8
    ensures Invert(mask, x, y) <==> Pictured(mask, x, y)
  {
    hide Invert, Picture;
    SixBySix(mask);
    InvertOfResidues(mask, x, y);
    ProductPicture(mask, x % 6, y % 6);
  }

  /** Each mask is its picture, repeated over the whole plane. */
  lemma MaskPicture(mask: nat, x: nat, y: nat)
    requires mask < 8
    ensures Invert(mask, x, y) <==> Pictured(mask, x, y)
  {
    hide Invert, Pictured;
    match mask
    case 0 => PictureOf0(x, y);
    case 1 => PictureOf1(x, y);
    case 2 => PictureOf2(x, y);
    case 3 => PictureOf3(x, y);
    case 4 => PictureOf4(x, y);
    case _ => PictureOfProduct(mask, x, y);
  }

  // ----- what the pictures show

  /** Mask 0 is a chessboard, mask 1 stripes of rows, mask 2 one column in three, mask 3 one diagonal in three. */
  lemma StripedMasks(x: nat, y: nat)
    ensures Invert(0, x + 1, y) != Invert(0, x, y) && Invert(0, x, y + 1) != Invert(0, x, y)
    ensures Invert(1, x + 1, y) == Invert(1, x, y) && Invert(1, x, y + 1) != Invert(1, x, y)
    ensures Invert(2, x, y + 1) == Invert(2, x, y) && OneOfThree(Invert(2, x, y), Invert(2, x + 1, y), Invert(2, x + 2, y))
    ensures Invert(3, x + 1, y) == Invert(3, x, y + 1) && OneOfThree(Invert(3, x, y), Invert(3, x + 1, y), Invert(3, x + 2, y))
  {
    ThreeInARow(x);
    ThreeInARow(x + y);
    OneStep(x + y);
    OneStep(y);
    assert x + 1 + y == x + y + 1 && x + 2 + y == x + y + 2;
  }

  lemma OneStep(v: nat)
    ensures (v + 1) % 2 == 0 <==> v % 2 != 0
  {
  }

  lemma ThreeInARow(v: nat)
    ensures OneOfThree(v % 3 == 0, (v + 1) % 3 == 0, (v + 2) % 3 == 0)
  {
    var q, r := v / 3, v % 3;
    if r == 0 {
      ThreeTimes(q, 1);
      ThreeTimes(q, 2);
    } else if r == 1 {
      ThreeTimes(q, 2);
      ThreeTimes(q + 1, 0);
    } else {
      ThreeTimes(q + 1, 0);
      ThreeTimes(q + 1, 1);
    }
  }

  predicate OneOfThree(a: bool, b: bool, c: bool)
  {
    (a && !b && !c) || (!a && b && !c) || (!a && !b && c)
  }

  /** Mask 4 is a chessboard of blocks of three by two. */
  lemma BlockMask(x: nat, y: nat)
    ensures Invert(4, x, y) == Invert(4, x - x % 3, y - y % 2)
    ensures Invert(4, x + 3, y) != Invert(4, x, y) && Invert(4, x, y + 2) != Invert(4, x, y)
  {
  }

  /** The masks that multiply are symmetric. */
  lemma SymmetricMasks(mask: nat, x: nat, y: nat)
    requires 5 <= mask < 8
    ensures Invert(mask, x, y) == Invert(mask, y, x)
  {
    assert x * y == y * x;
    SameResidues(mask, x, y, y, x);
  }
}
