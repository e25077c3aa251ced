/** The powers of two in the field: 2 has order 255, so every byte but zero is one of its powers. */
module FieldPowers {
  import opened GaloisField
  import opened ReedSolomon
  import opened QrSegments
  import Sets

  // ----- laws of powers

  lemma MulOneRight(x: Byte)
    ensures Mul(x, ONE) == x
  {
    MulCommutes(x, ONE);
    MulOneLeft(x);
  }

  lemma {:induction false} PowAdd(x: Byte, a: nat, b: nat)
    ensures Pow(x, a + b) == Mul(Pow(x, a), Pow(x, b))
  {
    hide Mul;
    if b == 0 {
      MulOneRight(Pow(x, a));
    } else {
      PowAdd(x, a, b - 1);
      MulAssociates(Pow(x, a), Pow(x, b - 1), x);
    }
  }

  lemma {:induction false} PowMul(x: Byte, a: nat, b: nat)
    ensures Pow(Pow(x, a), b) == Pow(x, a * b)
  {
    hide Mul;
    if b == 0 {
      assert a * b == 0;
    } else {
      PowMul(x, a, b - 1);
      assert a * b == a * (b - 1) + a;
      PowAdd(x, a * (b - 1), a);
    }
  }

  lemma {:induction false} PowOfOne(n: nat)
    ensures Pow(ONE, n) == ONE
  {
    hide Mul;
    if n > 0 {
      PowOfOne(n - 1);
      MulOneRight(ONE);
    }
  }

  // ----- doubling and adding, bit by bit

  lemma Times2Bits(z: Byte)
    ensures Times2(z) == [z[1], z[2], z[3], z[4] != z[0], z[5] != z[0], z[6] != z[0], z[7], z[0]]
  {
  }

  lemma PowTwoNext(n: nat)
    ensures Pow(TWO, n + 1) == Times2(Pow(TWO, n))
  {
    hide Mul, Times2;
    var x := Pow(TWO, n);
    Doubled();
    MulTimes2(x, ONE);
    MulOneRight(x);
  }

  lemma Doubled()
    ensures Times2(ONE) == TWO
  {
    Times2Bits(ONE);
  }

  // ----- some powers, computed with machine bytes

  /** The bits of a machine byte. */
  function Octet(v: bv8): Byte
  {
    [v & 0x80 != 0, v & 0x40 != 0, v & 0x20 != 0, v & 0x10 != 0, v & 8 != 0, v & 4 != 0, v & 2 != 0, v & 1 != 0]
  }

  function Twice(v: bv8): bv8
  {
    (v << 1) ^ (if v & 0x80 != 0 then 0x1D else 0)
  }

  function TwoTo(n: nat): bv8
  {
    if n == 0 then 1 else Twice(TwoTo(n - 1))
  }

  lemma TwiceBits(v: bv8)
    ensures Times2(Octet(v)) == Octet(Twice(v))
  {
    Times2Bits(Octet(v));
    hide Times2;
    var w := Twice(v);
    assert (w & 0x80 != 0) == (v & 0x40 != 0);
    assert (w & 0x40 != 0) == (v & 0x20 != 0);
    assert (w & 0x20 != 0) == (v & 0x10 != 0);
    assert (w & 0x10 != 0) == ((v & 8 != 0) != (v & 0x80 != 0));
    assert (w & 8 != 0) == ((v & 4 != 0) != (v & 0x80 != 0));
    assert (w & 4 != 0) == ((v & 2 != 0) != (v & 0x80 != 0));
    assert (w & 2 != 0) == (v & 1 != 0);
    assert (w & 1 != 0) == (v & 0x80 != 0);
  }

  lemma {:induction false} TwoToBits(n: nat)
    ensures Pow(TWO, n) == Octet(TwoTo(n))
  {
    hide Octet, Twice, Mul, Times2, Xor;
    if n == 0 {
      OneBits();
    } else {
      PowTwoNext(n - 1);
      TwoToBits(n - 1);
      TwiceBits(TwoTo(n - 1));
    }
  }

  lemma OneBits()
    ensures Octet(1) == ONE && Octet(0) == ZERO
  {
  }

  lemma XorOfOctet(v: bv8, w: bv8)
    ensures Xor(Octet(v), Octet(w)) == Octet(v ^ w)
  {
    hide Octet, Xor;
    BitsAre(v);
    BitsAre(w);
    BitsAre(v ^ w);
    XorHigh(v, w);
    XorLow(v, w);
    SameBits(Octet(v), Octet(w), Octet(v ^ w));
  }

  lemma SameBits(a: Byte, b: Byte, c: Byte)
    requires c[0] == (a[0] != b[0]) && c[1] == (a[1] != b[1]) && c[2] == (a[2] != b[2]) && c[3] == (a[3] != b[3])
    requires c[4] == (a[4] != b[4]) && c[5] == (a[5] != b[5]) && c[6] == (a[6] != b[6]) && c[7] == (a[7] != b[7])
    ensures Xor(a, b) == c
  {
    var d := Xor(a, b);
    assert forall i :: 0 <= i < 8 ==> c[i] == d[i];
  }

  lemma BitsAre(v: bv8)
    ensures var b := Octet(v);
            && b[0] == (v & 0x80 != 0) && b[1] == (v & 0x40 != 0) && b[2] == (v & 0x20 != 0) && b[3] == (v & 0x10 != 0)
            && b[4] == (v & 8 != 0) && b[5] == (v & 4 != 0) && b[6] == (v & 2 != 0) && b[7] == (v & 1 != 0)
  {
  }

  lemma XorHigh(v: bv8, w: bv8)
    ensures ((v ^ w) & 0x80 != 0) == ((v & 0x80 != 0) != (w & 0x80 != 0))
    ensures ((v ^ w) & 0x40 != 0) == ((v & 0x40 != 0) != (w & 0x40 != 0))
    ensures ((v ^ w) & 0x20 != 0) == ((v & 0x20 != 0) != (w & 0x20 != 0))
    ensures ((v ^ w) & 0x10 != 0) == ((v & 0x10 != 0) != (w & 0x10 != 0))
  {
  }

  lemma XorLow(v: bv8, w: bv8)
    ensures ((v ^ w) & 8 != 0) == ((v & 8 != 0) != (w & 8 != 0))
    ensures ((v ^ w) & 4 != 0) == ((v & 4 != 0) != (w & 4 != 0))
    ensures ((v ^ w) & 2 != 0) == ((v & 2 != 0) != (w & 2 != 0))
    ensures ((v ^ w) & 1 != 0) == ((v & 1 != 0) != (w & 1 != 0))
  {
  }

  function Round(x: bv8, z: bv8, bit: bool): bv8
  {
    Twice(z) ^ (if bit then x else 0)
  }

  /** Horner's rule over the first k bits of y. */
  function Product(x: bv8, y: Byte, k: nat): bv8
    requires k <= 8
  {
    if k == 0 then 0 else Round(x, Product(x, y, k - 1), y[k - 1])
  }

  lemma RoundBits(x: bv8, z: bv8, bit: bool)
    ensures Xor(Times2(Octet(z)), if bit then Octet(x) else ZERO) == Octet(Round(x, z, bit))
  {
    hide Octet, Twice, Times2, Xor;
    OneBits();
    TwiceBits(z);
    XorOfOctet(Twice(z), if bit then x else 0);
  }

  lemma {:induction false} ProductBits(x: bv8, y: Byte, k: nat)
    requires k <= 8
    ensures Horner(Octet(x), y, k) == Octet(Product(x, y, k))
  {
    hide Octet, Round, Times2, Xor;
    OneBits();
    if k > 0 {
      ProductBits(x, y, k - 1);
      RoundBits(x, Product(x, y, k - 1), y[k - 1]);
    }
  }

  lemma FirstPowers()
    ensures TwoTo(15) == 0x26 && TwoTo(17) == 0x98
  {
    assert TwoTo(2) == 0x04;
    assert TwoTo(4) == 0x10;
    assert TwoTo(6) == 0x40;
    assert TwoTo(8) == 0x1D;
    assert TwoTo(10) == 0x74;
    assert TwoTo(12) == 0xCD;
    assert TwoTo(14) == 0x13;
    assert TwoTo(16) == 0x4C;
  }

  lemma SomeProducts()
    ensures Product(0x98, Octet(0x98), 8) == 0x4E && Product(0x4E, Octet(0x98), 8) == 0x0A
    ensures Product(0x0A, Octet(0x4E), 8) == 0xD6
    ensures Product(0xD6, Octet(0xD6), 8) == 0xD7 && Product(0xD7, Octet(0xD6), 8) == 1
  {
  }

  lemma PowProduct(a: nat, v: bv8, b: nat, w: bv8)
    requires Pow(TWO, a) == Octet(v) && Pow(TWO, b) == Octet(w)
    ensures Pow(TWO, a + b) == Octet(Product(v, Octet(w), 8))
  {
    PowAdd(TWO, a, b);
    hide Octet, Horner, Product;
    ProductBits(v, Octet(w), 8);
  }

  lemma NotOne(v: bv8)
    requires v & 2 != 0
    ensures Octet(v) != ONE
  {
  }

  // ----- the order of 2

  lemma TwoHasOrder255()
    ensures Pow(TWO, 255) == ONE
    ensures Pow(TWO, 85) != ONE && Pow(TWO, 51) != ONE && Pow(TWO, 15) != ONE
  {
    hide Octet, TwoTo, Product, Pow;
    FirstPowers();
    SomeProducts();
    TwoToBits(15);
    TwoToBits(17);
    PowProduct(17, 0x98, 17, 0x98);
    PowProduct(34, 0x4E, 17, 0x98);
    PowProduct(51, 0x0A, 34, 0x4E);
    PowProduct(85, 0xD6, 85, 0xD6);
    PowProduct(170, 0xD7, 85, 0xD6);
    OneBits();
    NotOne(0x26);
    NotOne(0x0A);
    NotOne(0xD6);
  }

  /** If the power d is one, so is every power that a multiple of d exceeds a multiple of 255 by. */
  lemma MultipleOfOrder(d: nat, m: nat, t: nat, e: nat)
    requires Pow(TWO, d) == ONE && d * m == 255 * t + e
    ensures Pow(TWO, e) == ONE
  {
    hide Pow, Mul;
    TwoHasOrder255();
    PowMul(TWO, d, m);
    PowMul(TWO, 255, t);
    PowOfOne(m);
    PowOfOne(t);
    PowAdd(TWO, 255 * t, e);
    MulOneLeft(Pow(TWO, e));
  }

  /** Inverses modulo the prime factors of 255. */
  lemma Inverse(d: nat, p: nat) returns (k: nat, r: nat, i: nat, t: nat)
    requires p in {3, 5, 17} && d % p != 0
    ensures d == p * k + r && r * i == p * t + 1
  {
    k, r := d / p, d % p;
    if p == 17 {
      i := match r
        case 2 => 9 case 3 => 6 case 4 => 13 case 5 => 7 case 6 => 3 case 7 => 5 case 8 => 15 case 9 => 2
        case 10 => 12 case 11 => 14 case 12 => 10 case 13 => 4 case 14 => 11 case 15 => 8 case 16 => 16 case _ => 1;
    } else if p == 5 {
      i := match r case 2 => 3 case 3 => 2 case 4 => 4 case _ => 1;
    } else {
      i := r;
    }
    t := r * i / p;
  }

  lemma NotOneByFactor(d: nat, p: nat, e: nat)
    requires p in {3, 5, 17} && e * p == 255 && d % p != 0 && Pow(TWO, e) != ONE
    ensures Pow(TWO, d) != ONE
  {
    hide Pow;
    var k, r, i, t := Inverse(d, p);
    FactorArithmetic(d, p, e, k, r, i, t);
    if Pow(TWO, d) == ONE {
      MultipleOfOrder(d, e * i, k * i + t, e);
    }
  }

  lemma FactorArithmetic(d: nat, p: nat, e: nat, k: nat, r: nat, i: nat, t: nat)
    requires d == p * k + r && e * p == 255 && r * i == p * t + 1
    ensures d * (e * i) == 255 * (k * i + t) + e
  {
    calc {
      d * (e * i);
      (p * k + r) * (e * i);
      (p * k) * (e * i) + r * (e * i);
      (e * p) * (k * i) + e * (r * i);
      255 * (k * i) + e * (p * t + 1);
      255 * (k * i) + (e * p) * t + e;
    }
  }

  lemma NoSmallerOrder(d: nat)
    requires 0 < d < 255
    ensures Pow(TWO, d) != ONE
  {
    hide Pow;
    TwoHasOrder255();
    if d % 3 != 0 {
      NotOneByFactor(d, 3, 85);
    } else if d % 5 != 0 {
      NotOneByFactor(d, 5, 51);
    } else {
      assert d % 17 != 0;
      NotOneByFactor(d, 17, 15);
    }
  }

  /** The first 255 powers of 2 differ. */
  lemma PowersDiffer(i: nat, j: nat)
    requires i < j < 255
    ensures Pow(TWO, i) != Pow(TWO, j)
  {
    hide Pow, Mul;
    TwoHasOrder255();
    NoSmallerOrder(j - i);
    PowAdd(TWO, i, 255 - i);
    PowAdd(TWO, j, 255 - i);
    PowAdd(TWO, 255, j - i);
    MulOneLeft(Pow(TWO, j - i));
  }

  // ----- every byte but zero is a power of 2

  lemma {:induction false} FromBitsTellsApart(a: seq<bool>, b: seq<bool>)
    requires |a| == |b| && FromBits(a) == FromBits(b)
    ensures a == b
  {
    if a != [] {
      var n := |a| - 1;
      FromBitsTellsApart(a[..n], b[..n]);
      assert a == a[..n] + [a[n]] && b == b[..n] + [b[n]];
    }
  }

  lemma {:induction false} FromBitsRange(b: seq<bool>)
    ensures FromBits(b) < Pow2(|b|)
  {
    if b != [] {
      FromBitsRange(b[..|b| - 1]);
    }
  }

  function PowerValues(n: nat): set<int>
  {
    set i | 0 <= i < n :: FromBits(Pow(TWO, i))
  }

  lemma {:induction false} PowerValuesSize(n: nat)
    requires n <= 255
    ensures |PowerValues(n)| == n
  {
    hide FromBits, Pow;
    if n > 0 {
      PowerValuesSize(n - 1);
      var v := FromBits(Pow(TWO, n - 1));
      assert PowerValues(n) == PowerValues(n - 1) + {v};
      if v in PowerValues(n - 1) {
        var i :| 0 <= i < n - 1 && v == FromBits(Pow(TWO, i));
        FromBitsTellsApart(Pow(TWO, i), Pow(TWO, n - 1));
        PowersDiffer(i, n - 1);
      }
    }
  }

  lemma PowersInRange()
    ensures PowerValues(255) <= Sets.Interval(0, 256) - {FromBits(ZERO)}
  {
    hide Pow, FromBits, Sets.Interval;
    forall i | 0 <= i < 255 ensures FromBits(Pow(TWO, i)) in Sets.Interval(0, 256) - {FromBits(ZERO)} {
      PowerIsOther(i);
    }
  }

  /** Zero is not among the powers, whose 255 values lie in 0 to 255; so every other value is. */
  lemma PowersFill(v: int)
    requires 0 <= v < 256 && v != FromBits(ZERO)
    ensures v in PowerValues(255)
  {
    hide PowerValues, FromBits, Sets.Interval;
    PowersInRange();
    PowerValuesSize(255);
    ByteRange(ZERO);
    Sets.SubsetOfSize(PowerValues(255), Sets.Interval(0, 256) - {FromBits(ZERO)});
  }

  lemma ByteRange(x: Byte)
    ensures 0 <= FromBits(x) < 256
  {
    FromBitsRange(x);
    ByteSize();
  }

  lemma PowerIsOther(i: nat)
    requires i < 255
    ensures 0 <= FromBits(Pow(TWO, i)) < 256 && FromBits(Pow(TWO, i)) != FromBits(ZERO)
  {
    hide Pow, FromBits;
    ByteRange(Pow(TWO, i));
    PowerIsNotZero(i);
    if FromBits(Pow(TWO, i)) == FromBits(ZERO) {
      FromBitsTellsApart(Pow(TWO, i), ZERO);
    }
  }

  lemma EveryByteIsAPower(x: Byte) returns (i: nat)
    requires x != ZERO
    ensures i < 255 && x == Pow(TWO, i)
  {
    hide Pow, FromBits;
    var v := FromBits(x);
    ByteRange(x);
    if v == FromBits(ZERO) {
      FromBitsTellsApart(x, ZERO);
    }
    PowersFill(v);
    i :| 0 <= i < 255 && v == FromBits(Pow(TWO, i));
    FromBitsTellsApart(x, Pow(TWO, i));
  }

  lemma ByteSize()
    ensures Pow2(8) == 256
  {
  }

  lemma PowerIsNotZero(i: nat)
    requires i < 255
    ensures Pow(TWO, i) != ZERO
  {
    hide Pow, Mul;
    TwoHasOrder255();
    PowAdd(TWO, i, 255 - i);
    MulZero(Pow(TWO, 255 - i));
    ZeroIsNotOne();
  }

  lemma ZeroIsNotOne()
    ensures ZERO != ONE
  {
    assert ZERO[7] != ONE[7];
  }

  /** A product is zero only if one of its factors is. */
  lemma NoZeroDivisors(x: Byte, y: Byte)
    requires Mul(x, y) == ZERO
    ensures x == ZERO || y == ZERO
  {
    hide Pow, Mul;
    if x != ZERO {
      var i := EveryByteIsAPower(x);
      var inverse := Pow(TWO, 255 - i);
      TwoHasOrder255();
      PowAdd(TWO, 255 - i, i);
      MulAssociates(inverse, x, y);
      MulOneLeft(y);
      MulZero(inverse);
    }
  }
}
