/**
 The field GF(2^8) with the reduction polynomial x^8 + x^4 + x^3 + x^2 + 1 (0x11D), in which the QR
 encoder computes its error correction codewords.

 A byte is its eight bits, most significant bit first, so a byte is also the polynomial over GF(2) that
 those bits denote, and exclusive-or is addition.
 */
module GaloisField {

  type Byte = b: seq<bool> | |b| == 8 witness [false, false, false, false, false, false, false, false]

  const ZERO: Byte := [false, false, false, false, false, false, false, false]
  const ONE: Byte := [false, false, false, false, false, false, false, true]
  const TWO: Byte := [false, false, false, false, false, false, true, false]

  /** The low eight bits of the reduction polynomial 0x11D. */
  const REDUCTION: Byte := [false, false, false, true, true, true, false, true]

  function Xor(a: Byte, b: Byte): (c: Byte)
    ensures forall i :: 0 <= i < 8 ==> c[i] == (a[i] != b[i])
  {
    seq(8, i requires 0 <= i < 8 => a[i] != b[i])
  }

  function ShiftLeft(z: Byte): (c: Byte)
  {
    z[1..] + [false]
  }

  /** Multiplication by x: shift left, and subtract the reduction polynomial if a bit was shifted out. */
  function Times2(z: Byte): Byte
  {
    Xor(ShiftLeft(z), if z[0] then REDUCTION else ZERO)
  }

  /** Horner's rule over the first k (most significant) bits of y. */
  function Horner(x: Byte, y: Byte, k: nat): Byte
    requires k <= 8
  {
    if k == 0 then ZERO else Xor(Times2(Horner(x, y, k - 1)), if y[k - 1] then x else ZERO)
  }

  /** The product in the field. */
  function Mul(x: Byte, y: Byte): Byte
  {
    Horner(x, y, 8)
  }

  /** The product by the shift-and-add loop over the bits of y, from high to low. */
  method Multiply(x: Byte, y: Byte) returns (z: Byte)
    ensures z == Mul(x, y)
  {
    hide Xor, Times2;
    z := ZERO;
    var i := 7;
    while i >= 0
      invariant -1 <= i <= 7
      invariant z == Horner(x, y, 7 - i)
    {
      z := Times2(z);
      if y[7 - i] {
        z := Xor(z, x);
      } else {
        z := Xor(z, ZERO);
      }
      i := i - 1;
    }
  }

  // ----- addition

  lemma XorCommutes(a: Byte, b: Byte)
    ensures Xor(a, b) == Xor(b, a)
  {
  }

  lemma XorAssociates(a: Byte, b: Byte, c: Byte)
    ensures Xor(Xor(a, b), c) == Xor(a, Xor(b, c))
  {
  }

  lemma XorUnits(a: Byte)
    ensures Xor(a, a) == ZERO
    ensures Xor(a, ZERO) == a
    ensures Xor(ZERO, a) == a
  {
    assert Xor(a, a) == ZERO;
    assert Xor(a, ZERO) == a;
    assert Xor(ZERO, a) == a;
  }

  lemma XorSwap(a: Byte, b: Byte, c: Byte, d: Byte)
    ensures Xor(Xor(a, b), Xor(c, d)) == Xor(Xor(a, c), Xor(b, d))
  {
  }

  // ----- multiplication is bilinear

  lemma Times2Linear(a: Byte, b: Byte)
    ensures Times2(Xor(a, b)) == Xor(Times2(a), Times2(b))
  {
    var ra, rb := if a[0] then REDUCTION else ZERO, if b[0] then REDUCTION else ZERO;
    assert ShiftLeft(Xor(a, b)) == Xor(ShiftLeft(a), ShiftLeft(b));
    assert (if a[0] != b[0] then REDUCTION else ZERO) == Xor(ra, rb) by {
      XorUnits(REDUCTION);
      XorUnits(ZERO);
    }
    hide Xor, ShiftLeft;
    XorSwap(ShiftLeft(a), ShiftLeft(b), ra, rb);
  }

  lemma {:induction false} HornerLinearLeft(a: Byte, b: Byte, y: Byte, k: nat)
    requires k <= 8
    ensures Horner(Xor(a, b), y, k) == Xor(Horner(a, y, k), Horner(b, y, k))
  {
    hide Xor, Times2;
    XorUnits(ZERO);
    if k > 0 {
      HornerLinearLeft(a, b, y, k - 1);
      Times2Linear(Horner(a, y, k - 1), Horner(b, y, k - 1));
      XorSwap(Times2(Horner(a, y, k - 1)), Times2(Horner(b, y, k - 1)),
              if y[k - 1] then a else ZERO, if y[k - 1] then b else ZERO);
    }
  }

  lemma {:induction false} HornerLinearRight(x: Byte, a: Byte, b: Byte, k: nat)
    requires k <= 8
    ensures Horner(x, Xor(a, b), k) == Xor(Horner(x, a, k), Horner(x, b, k))
  {
    hide Xor, Times2;
    XorUnits(ZERO);
    XorUnits(x);
    if k > 0 {
      HornerLinearRight(x, a, b, k - 1);
      Times2Linear(Horner(x, a, k - 1), Horner(x, b, k - 1));
      XorSwap(Times2(Horner(x, a, k - 1)), Times2(Horner(x, b, k - 1)),
              if a[k - 1] then x else ZERO, if b[k - 1] then x else ZERO);
    }
  }

  lemma MulDistributes(a: Byte, b: Byte, c: Byte)
    ensures Mul(Xor(a, b), c) == Xor(Mul(a, c), Mul(b, c))
    ensures Mul(c, Xor(a, b)) == Xor(Mul(c, a), Mul(c, b))
  {
    hide Xor, Times2, Horner;
    HornerLinearLeft(a, b, c, 8);
    HornerLinearRight(c, a, b, 8);
  }

  // ----- multiplication is unital, associative and commutative

  lemma ShiftInBit(z: Byte, bit: bool)
    requires !z[0]
    ensures Xor(Times2(z), if bit then ONE else ZERO) == z[1..] + [bit]
  {
    XorUnits(ShiftLeft(z));
    assert Times2(z) == ShiftLeft(z);
    var w := if bit then ONE else ZERO;
    assert w[0] == w[1] == w[2] == w[3] == w[4] == w[5] == w[6] == false && w[7] == bit;
    forall i | 0 <= i < 8 ensures Xor(ShiftLeft(z), w)[i] == (z[1..] + [bit])[i] {
      assert i < 7 ==> !w[i];
    }
  }

  /** Until a bit is shifted out, Horner's rule over x = 1 just copies the bits of y. */
  lemma {:induction false} HornerOne(y: Byte, k: nat)
    requires k <= 8
    ensures forall i :: 0 <= i < 8 ==> Horner(ONE, y, k)[i] == (i >= 8 - k && y[i - 8 + k])
  {
    if k == 0 {
      assert forall i :: 0 <= i < 8 ==> !ZERO[i];
    } else {
      hide Xor, Times2;
      HornerOne(y, k - 1);
      ShiftInBit(Horner(ONE, y, k - 1), y[k - 1]);
    }
  }

  lemma MulOneLeft(y: Byte)
    ensures Mul(ONE, y) == y
  {
    HornerOne(y, 8);
    assert Mul(ONE, y) == y by { hide Horner; }
  }

  lemma {:induction false} HornerZero(x: Byte, k: nat)
    requires k <= 8
    ensures Horner(x, ZERO, k) == ZERO
    ensures Horner(ZERO, x, k) == ZERO
  {
    if k > 0 {
      hide Times2, Xor;
      HornerZero(x, k - 1);
      Times2Zero();
      XorUnits(ZERO);
    }
  }

  lemma MulZero(x: Byte)
    ensures Mul(x, ZERO) == ZERO
    ensures Mul(ZERO, x) == ZERO
  {
    HornerZero(x, 8);
  }

  /** Doubling the left factor doubles the product. */
  lemma {:induction false} HornerTimes2Left(x: Byte, y: Byte, k: nat)
    requires k <= 8
    ensures Horner(Times2(x), y, k) == Times2(Horner(x, y, k))
  {
    hide Xor, ShiftLeft, Times2;
    Times2Zero();
    if k > 0 {
      HornerTimes2Left(x, y, k - 1);
      Times2Linear(Times2(Horner(x, y, k - 1)), if y[k - 1] then x else ZERO);
    }
  }

  lemma Times2Zero()
    ensures Times2(ZERO) == ZERO
  {
    XorUnits(ZERO);
    assert ShiftLeft(ZERO) == ZERO;
  }

  /** Reading y's bits into ONE and then multiplying by x is the same as reading them into x. */
  lemma {:induction false} HornerThroughOne(x: Byte, y: Byte, k: nat)
    requires k <= 8
    ensures Mul(Horner(ONE, y, k), x) == Horner(x, y, k)
  {
    hide Xor, Times2;
    if k == 0 {
      MulZero(x);
    } else {
      HornerThroughOne(x, y, k - 1);
      var z := Horner(ONE, y, k - 1);
      var bit := if y[k - 1] then ONE else ZERO;
      MulDistributes(Times2(z), bit, x);
      HornerTimes2Left(z, x, 8);
      MulOneLeft(x);
      MulZero(x);
    }
  }

  lemma MulCommutes(x: Byte, y: Byte)
    ensures Mul(x, y) == Mul(y, x)
  {
    hide Horner;
    HornerThroughOne(x, y, 8);
    assert Horner(ONE, y, 8) == Mul(ONE, y);
    MulOneLeft(y);
  }

  lemma {:induction false} HornerAssociates(a: Byte, b: Byte, c: Byte, k: nat)
    requires k <= 8
    ensures Horner(Mul(a, b), c, k) == Mul(a, Horner(b, c, k))
  {
    hide Xor, Times2;
    if k == 0 {
      MulZero(a);
    } else {
      HornerAssociates(a, b, c, k - 1);
      hide Mul;
      var z := Horner(b, c, k - 1);
      MulDistributes(Times2(z), if c[k - 1] then b else ZERO, a);
      MulTimes2(a, z);
      MulZero(a);
    }
  }

  lemma MulTimes2(x: Byte, y: Byte)
    ensures Mul(Times2(x), y) == Times2(Mul(x, y))
    ensures Mul(x, Times2(y)) == Times2(Mul(x, y))
  {
    hide Horner, Times2, Xor;
    HornerTimes2Left(x, y, 8);
    HornerTimes2Left(y, x, 8);
    MulCommutes(x, y);
    MulCommutes(x, Times2(y));
  }

  lemma MulAssociates(a: Byte, b: Byte, c: Byte)
    ensures Mul(Mul(a, b), c) == Mul(a, Mul(b, c))
  {
    hide Horner;
    HornerAssociates(a, b, c, 8);
  }
}
