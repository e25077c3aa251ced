/**
 Reed-Solomon error correction as the QR encoder computes it: the generator polynomial whose roots are
 the powers 2^0, 2^1, ... of the field, and the remainder of the data divided by it.

 A polynomial is the sequence of its coefficients, highest power first. The leading coefficient of a
 generator is always one and is not stored.
 */
module ReedSolomon {
  import opened Wrappers
  import opened GaloisField

  type Poly = seq<Byte>

  datatype Error = DegreeOutOfRange

  function Eval(p: Poly, x: Byte): Byte
  {
    if p == [] then ZERO else Xor(Mul(Eval(p[..|p| - 1], x), x), p[|p| - 1])
  }

  function Pow(x: Byte, n: nat): Byte
  {
    if n == 0 then ONE else Mul(Pow(x, n - 1), x)
  }

  function Zeros(n: nat): (p: Poly)
    ensures |p| == n
  {
    seq(n, _ => ZERO)
  }

  function Sum(p: Poly, q: Poly): (r: Poly)
    requires |p| == |q|
    ensures |r| == |p|
  {
    seq(|p|, i requires 0 <= i < |p| => Xor(p[i], q[i]))
  }

  function Scale(p: Poly, c: Byte): (r: Poly)
    ensures |r| == |p|
  {
    seq(|p|, i requires 0 <= i < |p| => Mul(p[i], c))
  }

  /** Multiply by x, dropping the coefficient that is shifted out. */
  function Shift(p: Poly): (r: Poly)
    requires p != []
    ensures |r| == |p|
  {
    p[1..] + [ZERO]
  }

  /** (x - 2^0)(x - 2^1)...(x - 2^(n-1)), at the point x. */
  function RootProduct(x: Byte, n: nat): Byte
  {
    if n == 0 then ONE else Mul(RootProduct(x, n - 1), Xor(x, Pow(TWO, n - 1)))
  }

  // ----- the two computations

  /** The register of the divisor computation after i of its n rounds. */
  function DivisorRound(n: nat, i: nat): (p: Poly)
    requires n > 0
    ensures |p| == n
  {
    if i == 0 then Zeros(n - 1) + [ONE]
    else
      var p := DivisorRound(n, i - 1);
      Sum(Scale(p, Pow(TWO, i - 1)), Shift(p))
  }

  /** The generator of degree n, without its leading coefficient. */
  function Divisor(n: nat): (p: Poly)
    requires n > 0
    ensures |p| == n
  {
    DivisorRound(n, n)
  }

  /** The remainder of data times x^n, divided by the monic polynomial with the n low coefficients divisor. */
  function Remainder(data: Poly, divisor: Poly): (r: Poly)
    requires divisor != []
    ensures |r| == |divisor|
  {
    if data == [] then Zeros(|divisor|)
    else
      var r := Remainder(data[..|data| - 1], divisor);
      Sum(Shift(r), Scale(divisor, Xor(data[|data| - 1], r[0])))
  }

  /** The quotient of the same division. */
  function Quotient(data: Poly, divisor: Poly): (q: Poly)
    requires divisor != []
    ensures |q| == |data|
  {
    if data == [] then []
    else
      var init := data[..|data| - 1];
      Quotient(init, divisor) + [Xor(data[|data| - 1], Remainder(init, divisor)[0])]
  }

  method ComputeDivisor(degree: int) returns (r: Result<Poly, Error>)
    ensures r.Ok? <==> 1 <= degree <= 255
    ensures r.Ok? ==> r.value == Divisor(degree)
  {
    hide Xor, Mul;
    if degree < 1 || degree > 255 {
      return Err(DegreeOutOfRange);
    }
    var result := new Byte[degree](_ => ZERO);
    result[degree - 1] := ONE;
    assert result[..] == DivisorRound(degree, 0);
    var root := ONE;
    for i := 0 to degree
      invariant root == Pow(TWO, i)
      invariant result[..] == DivisorRound(degree, i)
    {
      ghost var before := result[..];
      var j := 0;
      while j < degree
        invariant 0 <= j <= degree
        invariant forall k :: 0 <= k < j ==> result[k] == Sum(Scale(before, root), Shift(before))[k]
        invariant forall k :: j <= k < degree ==> result[k] == before[k]
      {
        var product := Multiply(result[j], root);
        if j + 1 < degree {
          product := Xor(product, result[j + 1]);
        } else {
          XorUnits(product);
        }
        result[j] := product;
        j := j + 1;
      }
      assert result[..] == Sum(Scale(before, root), Shift(before));
      root := Multiply(root, TWO);
    }
    r := Ok(result[..]);
  }

  method ComputeRemainder(data: Poly, divisor: Poly) returns (r: Poly)
    requires divisor != []
    ensures r == Remainder(data, divisor)
  {
    hide Xor, Mul;
    r := Zeros(|divisor|);
    for k := 0 to |data|
      invariant r == Remainder(data[..k], divisor)
    {
      var factor := Xor(data[k], r[0]);
      ghost var shifted := Shift(r);
      r := r[1..] + [ZERO];
      for i := 0 to |divisor|
        invariant |r| == |divisor|
        invariant forall m :: 0 <= m < i ==> r[m] == Sum(shifted, Scale(divisor, factor))[m]
        invariant forall m :: i <= m < |divisor| ==> r[m] == shifted[m]
      {
        var product := Multiply(divisor[i], factor);
        r := r[i := Xor(r[i], product)];
      }
      assert r == Sum(shifted, Scale(divisor, factor));
      assert data[..k + 1][..k] == data[..k];
    }
    assert data[..|data|] == data;
  }

  // ----- evaluation

  lemma {:induction false} EvalSum(p: Poly, q: Poly, x: Byte)
    requires |p| == |q|
    ensures Eval(Sum(p, q), x) == Xor(Eval(p, x), Eval(q, x))
  {
    hide Xor, Mul;
    if p == [] {
      XorUnits(ZERO);
    } else {
      var n := |p| - 1;
      EvalSum(p[..n], q[..n], x);
      assert Sum(p, q)[..n] == Sum(p[..n], q[..n]);
      MulDistributes(Eval(p[..n], x), Eval(q[..n], x), x);
      XorSwap(Mul(Eval(p[..n], x), x), Mul(Eval(q[..n], x), x), p[n], q[n]);
    }
  }

  lemma {:induction false} EvalScale(p: Poly, c: Byte, x: Byte)
    ensures Eval(Scale(p, c), x) == Mul(Eval(p, x), c)
  {
    hide Xor, Mul;
    if p == [] {
      MulZero(c);
    } else {
      var n := |p| - 1;
      EvalScale(p[..n], c, x);
      assert Scale(p, c)[..n] == Scale(p[..n], c);
      var e := Eval(p[..n], x);
      MulAssociates(e, c, x);
      MulCommutes(c, x);
      MulAssociates(e, x, c);
      MulDistributes(Mul(e, x), p[n], c);
    }
  }

  /** Appending low coefficients multiplies the high ones by the power they are lifted to. */
  lemma {:induction false} EvalConcat(p: Poly, q: Poly, x: Byte)
    ensures Eval(p + q, x) == Xor(Mul(Eval(p, x), Pow(x, |q|)), Eval(q, x))
  {
    hide Xor, Mul;
    var e := Eval(p, x);
    if q == [] {
      assert p + q == p;
      MulCommutes(e, ONE);
      MulOneLeft(e);
      XorUnits(e);
    } else {
      var n := |q| - 1;
      EvalConcat(p, q[..n], x);
      assert (p + q)[..|p + q| - 1] == p + q[..n];
      MulDistributes(Mul(e, Pow(x, n)), Eval(q[..n], x), x);
      MulAssociates(e, Pow(x, n), x);
      XorAssociates(Mul(e, Pow(x, n + 1)), Mul(Eval(q[..n], x), x), q[n]);
    }
  }

  lemma EvalSingle(c: Byte, x: Byte)
    ensures Eval([c], x) == c
  {
    hide Xor, Mul;
    assert [c][..0] == [];
    MulZero(x);
    XorUnits(c);
  }

  lemma {:induction false} EvalZeros(n: nat, x: Byte)
    ensures Eval(Zeros(n), x) == ZERO
  {
    hide Xor, Mul;
    if n > 0 {
      EvalZeros(n - 1, x);
      assert Zeros(n)[..n - 1] == Zeros(n - 1);
      MulZero(x);
      XorUnits(ZERO);
    }
  }

  /** What the shift drops is the leading coefficient, lifted to the power n. */
  lemma EvalShift(p: Poly, x: Byte)
    requires p != []
    ensures Eval(Shift(p), x) == Xor(Mul(Eval(p, x), x), Mul(p[0], Pow(x, |p|)))
  {
    hide Xor, Mul;
    var n := |p|;
    var low, lead := Eval(p[1..], x), Mul(p[0], Pow(x, n - 1));
    assert p == [p[0]] + p[1..];
    EvalConcat([p[0]], p[1..], x);
    EvalSingle(p[0], x);
    assert Shift(p)[..n - 1] == p[1..];
    XorUnits(Mul(low, x));
    MulDistributes(lead, low, x);
    MulAssociates(p[0], Pow(x, n - 1), x);
    var a, b := Mul(p[0], Pow(x, n)), Mul(low, x);
    XorCommutes(a, b);
    XorAssociates(b, a, a);
    XorUnits(a);
  }

  // ----- the generator is the product of its root factors

  /** Before the last round the register holds a monic polynomial of degree i, right-aligned. */
  lemma {:induction false} DivisorRoundIsMonic(n: nat, i: nat)
    requires i < n
    ensures DivisorRound(n, i)[n - 1 - i] == ONE
    ensures forall k :: 0 <= k < n - 1 - i ==> DivisorRound(n, i)[k] == ZERO
  {
    hide Xor, Mul, Pow;
    if i > 0 {
      DivisorRoundIsMonic(n, i - 1);
      MulZero(Pow(TWO, i - 1));
      XorUnits(ONE);
      XorUnits(ZERO);
    }
  }

  /** Until a coefficient is shifted out, the register is the product of the first i factors. */
  lemma {:induction false} DivisorRoundIsProduct(n: nat, i: nat, x: Byte)
    requires i < n
    ensures Eval(DivisorRound(n, i), x) == RootProduct(x, i)
  {
    hide Xor, Mul, Pow, Eval;
    if i == 0 {
      EvalZeros(n - 1, x);
      EvalSingle(ONE, x);
      EvalConcat(Zeros(n - 1), [ONE], x);
      MulZero(Pow(x, 1));
      XorUnits(ONE);
    } else {
      hide RootProduct, DivisorRound;
      DivisorRoundIsProduct(n, i - 1, x);
      DivisorRoundStep(n, i, x);
      DivisorRoundIsMonic(n, i - 1);
      MulZero(Pow(x, n));
      XorUnits(RootProduct(x, i));
    }
  }

  /** One round multiplies by (x - 2^(i-1)) and drops the coefficient shifted out. */
  lemma DivisorRoundStep(n: nat, i: nat, x: Byte)
    requires 1 <= i <= n
    requires Eval(DivisorRound(n, i - 1), x) == RootProduct(x, i - 1)
    ensures Eval(DivisorRound(n, i), x) == Xor(RootProduct(x, i), Mul(DivisorRound(n, i - 1)[0], Pow(x, n)))
  {
    hide Xor, Mul;
    var p, root := DivisorRound(n, i - 1), Pow(TWO, i - 1);
    var e := Eval(p, x);
    EvalSum(Scale(p, root), Shift(p), x);
    EvalScale(p, root, x);
    EvalShift(p, x);
    MulDistributes(x, root, e);
    XorCommutes(Mul(e, x), Mul(e, root));
    XorAssociates(Mul(e, root), Mul(e, x), Mul(p[0], Pow(x, n)));
  }

  /** The generator the code computes is exactly (x - 2^0)(x - 2^1)...(x - 2^(n-1)). */
  lemma DivisorIsRootProduct(n: nat, x: Byte)
    requires n > 0
    ensures Eval([ONE] + Divisor(n), x) == RootProduct(x, n)
  {
    hide Xor, Mul, Eval, Pow, RootProduct, DivisorRound;
    DivisorRoundIsMonic(n, n - 1);
    DivisorRoundIsProduct(n, n - 1, x);
    DivisorRoundStep(n, n, x);
    EvalConcat([ONE], Divisor(n), x);
    EvalSingle(ONE, x);
    var rp, pow := RootProduct(x, n), Pow(x, n);
    MulOneLeft(pow);
    XorCommutes(rp, pow);
    XorAssociates(pow, pow, rp);
    XorUnits(pow);
    XorUnits(rp);
  }

  lemma {:induction false} RootProductVanishes(n: nat, i: nat)
    requires i < n
    ensures RootProduct(Pow(TWO, i), n) == ZERO
  {
    hide Xor, Mul;
    var x := Pow(TWO, i);
    if i == n - 1 {
      XorUnits(x);
      MulZero(RootProduct(x, n - 1));
    } else {
      RootProductVanishes(n - 1, i);
      MulZero(Xor(x, Pow(TWO, n - 1)));
    }
  }

  // ----- data followed by its remainder is a multiple of the generator

  /** The division identity: data times x^n plus the remainder is the quotient times the divisor. */
  lemma {:induction false} DivisionIdentity(data: Poly, divisor: Poly, x: Byte)
    requires divisor != []
    ensures Eval(data + Remainder(data, divisor), x) ==
            Mul(Eval(Quotient(data, divisor), x), Eval([ONE] + divisor, x))
  {
    hide Xor, Mul;
    var n := |divisor|;
    if data == [] {
      assert data + Zeros(n) == Zeros(n);
      EvalZeros(n, x);
      MulZero(Eval([ONE] + divisor, x));
    } else {
      var k := |data| - 1;
      DivisionIdentity(data[..k], divisor, x);
      DivisionStep(data, divisor, x);
    }
  }

  lemma DivisionStep(data: Poly, divisor: Poly, x: Byte)
    requires divisor != [] && data != []
    requires var init := data[..|data| - 1];
             Eval(init + Remainder(init, divisor), x) ==
             Mul(Eval(Quotient(init, divisor), x), Eval([ONE] + divisor, x))
    ensures Eval(data + Remainder(data, divisor), x) ==
            Mul(Eval(Quotient(data, divisor), x), Eval([ONE] + divisor, x))
  {
    hide Xor, Mul;
    var n, k := |divisor|, |data| - 1;
    var init, b := data[..k], data[k];
    var r, q := Remainder(init, divisor), Quotient(init, divisor);
    var f := Xor(b, r[0]);
    var xn := Pow(x, n);
    var ed, er, eg, eq := Eval(init, x), Eval(r, x), Eval([ONE] + divisor, x), Eval(q, x);
    // left-hand side
    EvalConcat(init, r, x);
    EvalConcat(data, Remainder(data, divisor), x);
    EvalSum(Shift(r), Scale(divisor, f), x);
    EvalShift(r, x);
    EvalScale(divisor, f, x);
    assert Eval(data, x) == Xor(Mul(ed, x), b);
    MulDistributes(Mul(ed, x), b, xn);
    MulAssociates(ed, x, xn);
    MulCommutes(x, xn);
    MulAssociates(ed, xn, x);
    MulDistributes(Mul(ed, xn), er, x);
    MulDistributes(b, r[0], xn);
    // right-hand side
    assert Quotient(data, divisor)[..k] == q;
    assert Eval(Quotient(data, divisor), x) == Xor(Mul(eq, x), f);
    MulDistributes(Mul(eq, x), f, eg);
    MulAssociates(eq, x, eg);
    MulCommutes(x, eg);
    MulAssociates(eq, eg, x);
    EvalConcat([ONE], divisor, x);
    EvalSingle(ONE, x);
    MulOneLeft(xn);
    MulDistributes(xn, Eval(divisor, x), f);
    MulCommutes(eg, f);
    MulCommutes(f, xn);
    RegroupSum(Mul(Mul(ed, xn), x), Mul(b, xn), Mul(er, x), Mul(r[0], xn), Mul(Eval(divisor, x), f));
  }

  lemma RegroupSum(a: Byte, b: Byte, c: Byte, d: Byte, e: Byte)
    ensures Xor(Xor(a, b), Xor(Xor(c, d), e)) == Xor(Xor(a, c), Xor(Xor(b, d), e))
  {
  }

  /** A codeword, data followed by its remainder, is zero at every root of the generator. */
  lemma CodewordVanishesAtRoots(data: Poly, n: nat, i: nat)
    requires i < n
    ensures Eval(data + Remainder(data, Divisor(n)), Pow(TWO, i)) == ZERO
  {
    hide Xor, Mul, Eval;
    var x := Pow(TWO, i);
    DivisionIdentity(data, Divisor(n), x);
    DivisorIsRootProduct(n, x);
    RootProductVanishes(n, i);
    MulZero(Eval(Quotient(data, Divisor(n)), x));
  }
}
