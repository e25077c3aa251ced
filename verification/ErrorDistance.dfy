/**
 How far apart codewords are: different data of one block gives codewords that differ in more places than there are
 error correction codewords, so half as many errors leave only one data that a received block can stand for.
 */
module ErrorDistance {
  import opened GaloisField
  import opened ReedSolomon
  import opened FieldPowers
  import opened Interleave
  import opened QrTables
  import Sets

  /** The places in which two sequences of one length differ. */
  function Differences(p: Poly, q: Poly): set<int>
    requires |p| == |q|
  {
    set k | 0 <= k < |p| && p[k] != q[k]
  }

  function NonZero(p: Poly): set<int>
  {
    set k | 0 <= k < |p| && p[k] != ZERO
  }

  // ----- weighted sums of powers

  /** The power of x that the coefficient at position k belongs to, with x a power of 2: what tells positions apart. */
  function Locator(p: Poly, k: nat): Byte
    requires k < |p|
  {
    Pow(TWO, |p| - 1 - k)
  }

  /** The sum of all coefficients, each times the power i of its locator. */
  function PowerSum(p: Poly, i: nat): Byte
  {
    if p == [] then ZERO else Xor(Mul(p[0], Pow(Locator(p, 0), i)), PowerSum(p[1..], i))
  }

  lemma {:induction false} EvalIsPowerSum(p: Poly, i: nat)
    ensures Eval(p, Pow(TWO, i)) == PowerSum(p, i)
  {
    hide Xor, Mul, Pow;
    if p != [] {
      var n := |p| - 1;
      assert p == [p[0]] + p[1..];
      EvalConcat([p[0]], p[1..], Pow(TWO, i));
      EvalSingle(p[0], Pow(TWO, i));
      EvalIsPowerSum(p[1..], i);
      PowMul(TWO, i, n);
      PowMul(TWO, n, i);
      assert n * i == i * n;
    }
  }

  /** Every coefficient times the sum of its locator and a. */
  function Weighted(p: Poly, a: Byte): (r: Poly)
    ensures |r| == |p|
  {
    seq(|p|, k requires 0 <= k < |p| => Mul(p[k], Xor(Locator(p, k), a)))
  }

  lemma {:induction false} PowerSumWeighted(p: Poly, a: Byte, i: nat)
    ensures PowerSum(Weighted(p, a), i) == Xor(PowerSum(p, i + 1), Mul(PowerSum(p, i), a))
  {
    hide Xor, Mul, Pow;
    if p == [] {
      MulZero(a);
      XorUnits(ZERO);
    } else {
      assert Weighted(p, a)[1..] == Weighted(p[1..], a);
      PowerSumWeighted(p[1..], a, i);
      WeightedTerm(p[0], Locator(p, 0), a, i);
      var x, y := Mul(p[0], Pow(Locator(p, 0), i)), PowerSum(p[1..], i);
      MulDistributes(x, y, a);
      XorSwap(Mul(p[0], Pow(Locator(p, 0), i + 1)), Mul(x, a), PowerSum(p[1..], i + 1), Mul(y, a));
    }
  }

  lemma WeightedTerm(c: Byte, x: Byte, a: Byte, i: nat)
    ensures Mul(Mul(c, Xor(x, a)), Pow(x, i)) == Xor(Mul(c, Pow(x, i + 1)), Mul(Mul(c, Pow(x, i)), a))
  {
    hide Xor, Mul;
    var p := Pow(x, i);
    MulAssociates(c, Xor(x, a), p);
    MulCommutes(Xor(x, a), p);
    MulDistributes(x, a, p);
    MulDistributes(Mul(p, x), Mul(p, a), c);
    MulAssociates(c, p, a);
  }

  // ----- a sequence with n zero sums has more than n coefficients

  lemma XorIsZero(a: Byte, b: Byte)
    requires Xor(a, b) == ZERO
    ensures a == b
  {
    hide Xor;
    XorAssociates(a, b, b);
    XorUnits(a);
    XorUnits(b);
  }

  /** Weighting with the locator of position r takes away the coefficient at r and no other. */
  lemma WeightedNonZero(p: Poly, r: nat)
    requires |p| <= 255 && r < |p|
    ensures NonZero(Weighted(p, Locator(p, r))) == NonZero(p) - {r}
  {
    hide Xor, Mul, Pow;
    var w := Weighted(p, Locator(p, r));
    forall k | 0 <= k < |p| ensures w[k] != ZERO <==> p[k] != ZERO && k != r {
      var f := Xor(Locator(p, k), Locator(p, r));
      if k == r {
        XorUnits(Locator(p, r));
        MulZero(p[k]);
      } else {
        if f == ZERO {
          XorIsZero(Locator(p, k), Locator(p, r));
          PowersDiffer(|p| - 1 - if k < r then r else k, |p| - 1 - if k < r then k else r);
        }
        if w[k] == ZERO {
          NoZeroDivisors(p[k], f);
        }
        MulZero(f);
      }
    }
  }

  lemma NonZeroTail(p: Poly, k: int)
    requires p != []
    ensures k in NonZero(p[1..]) <==> k >= 0 && k + 1 in NonZero(p)
  {
  }

  lemma {:induction false} NoCoefficients(p: Poly, i: nat)
    requires NonZero(p) == {}
    ensures PowerSum(p, i) == ZERO
  {
    hide Xor, Mul, Pow;
    if p != [] {
      assert 0 !in NonZero(p);
      forall k ensures k !in NonZero(p[1..]) {
        NonZeroTail(p, k);
      }
      NoCoefficients(p[1..], i);
      MulZero(Pow(Locator(p, 0), i));
      XorUnits(ZERO);
    }
  }

  /** The sum of a single coefficient is not zero. */
  lemma {:induction false} OneCoefficient(p: Poly, r: nat)
    requires NonZero(p) == {r} && r < |p|
    ensures PowerSum(p, 0) == p[r]
    decreases r
  {
    hide Xor, Mul, Pow;
    PowZero(Locator(p, 0));
    MulOneRight(p[0]);
    XorUnits(p[r]);
    forall k ensures k in NonZero(p[1..]) <==> k >= 0 && k + 1 == r {
      NonZeroTail(p, k);
    }
    if r == 0 {
      assert NonZero(p[1..]) == {};
      NoCoefficients(p[1..], 0);
    } else {
      assert p[0] == ZERO by { assert 0 !in NonZero(p); }
      assert NonZero(p[1..]) == {r - 1};
      OneCoefficient(p[1..], r - 1);
    }
  }

  lemma PowZero(x: Byte)
    ensures Pow(x, 0) == ONE
  {
  }

  ghost predicate FirstSumsVanish(p: Poly, n: nat)
  {
    forall i :: 0 <= i < n ==> PowerSum(p, i) == ZERO
  }

  lemma WeightedSumsVanish(p: Poly, a: Byte, n: nat)
    requires n > 0 && FirstSumsVanish(p, n)
    ensures FirstSumsVanish(Weighted(p, a), n - 1)
  {
    hide Xor, Mul, PowerSum, Weighted;
    MulZero(a);
    XorUnits(ZERO);
    forall i | 0 <= i < n - 1 ensures PowerSum(Weighted(p, a), i) == ZERO {
      PowerSumWeighted(p, a, i);
      assert PowerSum(p, i) == ZERO && PowerSum(p, i + 1) == ZERO;
    }
  }

  lemma MoreThanOne(p: Poly, n: nat, r: int)
    requires n > 0 && FirstSumsVanish(p, n) && r in NonZero(p)
    ensures NonZero(p) - {r} != {}
  {
    hide Xor, Mul, PowerSum;
    assert PowerSum(p, 0) == ZERO;
    if NonZero(p) - {r} == {} {
      assert NonZero(p) == {r};
      OneCoefficient(p, r);
    }
  }

  lemma {:induction false} ManyCoefficients(p: Poly, n: nat)
    requires |p| <= 255 && FirstSumsVanish(p, n) && NonZero(p) != {}
    ensures |NonZero(p)| > n
    decreases n
  {
    if n > 0 {
      var r := Sets.Pick(NonZero(p));
      assert 0 <= r < |p|;
      hide PowerSum, Weighted, Locator, NonZero, FirstSumsVanish;
      MoreThanOne(p, n, r);
      WeightedNonZero(p, r);
      WeightedSumsVanish(p, Locator(p, r), n);
      ManyCoefficients(Weighted(p, Locator(p, r)), n - 1);
    }
  }

  // ----- codewords

  /** Data followed by its error correction. */
  function Codeword(data: Poly, n: nat): (c: Poly)
    requires n > 0
    ensures |c| == |data| + n
  {
    data + Remainder(data, Divisor(n))
  }

  lemma SumNonZero(p: Poly, q: Poly)
    requires |p| == |q|
    ensures NonZero(Sum(p, q)) == Differences(p, q)
  {
    hide Xor;
    forall k | 0 <= k < |p| ensures Sum(p, q)[k] != ZERO <==> p[k] != q[k] {
      XorUnits(p[k]);
      if Sum(p, q)[k] == ZERO {
        XorIsZero(p[k], q[k]);
      }
    }
  }

  /** Different data gives codewords that differ in more places than there are error correction codewords. */
  lemma CodewordsDiffer(a: Poly, b: Poly, n: nat)
    requires n > 0 && |a| == |b| && |a| + n <= 255 && a != b
    ensures |Differences(Codeword(a, n), Codeword(b, n))| > n
  {
    var p, q := Codeword(a, n), Codeword(b, n);
    var s := Sum(p, q);
    hide Xor, Mul, Eval, Pow, Remainder, Divisor, PowerSum, Sum;
    forall i | 0 <= i < n ensures PowerSum(s, i) == ZERO {
      CodewordVanishesAtRoots(a, n, i);
      CodewordVanishesAtRoots(b, n, i);
      EvalSum(p, q, Pow(TWO, i));
      XorUnits(ZERO);
      EvalIsPowerSum(s, i);
    }
    SumNonZero(p, q);
    var k :| 0 <= k < |a| && a[k] != b[k];
    assert k in Differences(p, q);
    ManyCoefficients(s, n);
  }

  lemma DifferencesAddUp(p: Poly, q: Poly, w: Poly)
    requires |p| == |q| == |w|
    ensures |Differences(p, q)| <= |Differences(w, p)| + |Differences(w, q)|
  {
    var x, y := Differences(w, p), Differences(w, q);
    assert Differences(p, q) <= x + y;
    Sets.SubsetSize(Differences(p, q), x + y);
    assert |x + y| == |x| + |y| - |x * y|;
  }

  /** A received block is within n/2 errors of the codeword of one data only. */
  lemma CorrectionIsUnique(a: Poly, b: Poly, n: nat, received: Poly)
    requires n > 0 && |a| == |b| && |a| + n == |received| <= 255
    requires |Differences(received, Codeword(a, n))| <= n / 2
    requires |Differences(received, Codeword(b, n))| <= n / 2
    ensures a == b
  {
    hide Codeword, Differences;
    if a != b {
      CodewordsDiffer(a, b, n);
      DifferencesAddUp(Codeword(a, n), Codeword(b, n), received);
    }
  }

  // ----- a whole symbol

  /** Block j with its error correction, read from the interleaved codewords. */
  function BlockRead(codewords: Poly, s: Shape, j: nat): (b: Poly)
    requires s.Valid() && j < s.blocks && |codewords| == s.ColumnStart(s.PaddedLen())
    ensures |b| == s.BlockLen(j) + s.eccLen
  {
    ReadBlock(codewords, s, j) + ReadEcc(codewords, s, j)
  }

  /** No block of what was received has errors in more than half as many places as it has error correction. */
  ghost predicate Correctable(received: Poly, data: Poly, s: Shape)
    requires s.Valid() && |received| == s.ColumnStart(s.PaddedLen()) && |data| == s.BlockStart(s.blocks)
  {
    forall j :: 0 <= j < s.blocks ==>
      |Differences(BlockRead(received, s, j), BlockRead(Interleaved(data, s), s, j))| <= s.eccLen / 2
  }

  lemma {:induction false} SameBlocks(a: Poly, b: Poly, s: Shape, n: nat)
    requires n <= s.blocks && |a| == |b| == s.BlockStart(s.blocks)
    requires forall j :: 0 <= j < s.blocks ==> Block(a, s, j) == Block(b, s, j)
    ensures s.BlockStart(n) <= |a| && a[..s.BlockStart(n)] == b[..s.BlockStart(n)]
  {
    BlockStartGrows(s, n, s.blocks);
    if n > 0 {
      SameBlocks(a, b, s, n - 1);
      BlockStartStep(s, n - 1);
      var i, k := s.BlockStart(n - 1), s.BlockStart(n);
      assert a[..k] == a[..i] + Block(a, s, n - 1) && b[..k] == b[..i] + Block(b, s, n - 1);
    }
  }

  /** The codewords received from a symbol are within that many errors of one data only. */
  lemma DataIsUnique(a: Poly, b: Poly, received: Poly, v: Version, ecl: Ecc)
    requires |a| == |b| == NumDataCodewords(v, ecl) && |received| == RawCodewords(v)
    requires Correctable(received, a, ShapeOf(v, ecl)) && Correctable(received, b, ShapeOf(v, ecl))
    ensures a == b
  {
    var s := ShapeOf(v, ecl);
    hide ShapeOf, Interleaved, Differences, Remainder, Divisor, ReadBlock, ReadEcc;
    forall j | 0 <= j < s.blocks ensures Block(a, s, j) == Block(b, s, j) {
      DeinterleaveBlock(a, s, j);
      DeinterleaveBlock(b, s, j);
      CorrectionIsUnique(Block(a, s, j), Block(b, s, j), s.eccLen, BlockRead(received, s, j));
    }
    SameBlocks(a, b, s, s.blocks);
    assert a[..|a|] == a && b[..|b|] == b;
  }
}
