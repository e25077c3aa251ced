/** The integer divisions of the program: C++ division, which truncates, and division that rounds half away from zero. */
module Rounding {
  import opened Integers

  /** The C++ operator /. */
  function TruncDiv(a: int, b: int): int
    requires b != 0
  {
    if (a < 0) == (b < 0) then Abs(a) / Abs(b) else -(Abs(a) / Abs(b))
  }

  function DivRoundHalfAway(num: int, den: int): int
    requires den != 0
  {
    var q := (Abs(num) + Abs(den) / 2) / Abs(den);
    if (num < 0) != (den < 0) then -q else q
  }

  lemma DivMod(a: int, b: int) returns (q: int, r: int)
    requires a >= 0 && b > 0
    ensures q == a / b && a == q * b + r && 0 <= r < b && q >= 0
  {
    q, r := a / b, a % b;
  }

  lemma MulSign(q: int, b: int)
    ensures (-q) * b == -(q * b) && q * (-b) == -(q * b) && (-q) * (-b) == q * b
  {
  }

  /** C++ division: the remainder is smaller than the divisor and never has the opposite sign of the dividend. */
  lemma TruncDivFacts(a: int, b: int)
    requires b != 0
    ensures var r := a - TruncDiv(a, b) * b;
            Abs(r) < Abs(b) && (a >= 0 ==> r >= 0) && (a <= 0 ==> r <= 0) && Abs(r) <= Abs(a)
  {
    var q, r := DivMod(Abs(a), Abs(b));
    MulSign(q, Abs(b));
    assert q * Abs(b) >= 0;
    assert TruncDiv(a, b) * b == if a < 0 then -(q * Abs(b)) else q * Abs(b);
  }

  /** Rounding picks a nearest integer, and of two equally near the one farther from zero. */
  lemma RoundsToNearest(num: int, den: int)
    requires den != 0
    ensures var q := DivRoundHalfAway(num, den);
            && 2 * Abs(num - q * den) <= Abs(den)
            && (2 * Abs(num - q * den) == Abs(den) ==> Abs(num) < Abs(q * den))
            && (num >= 0 ==> q * den >= 0) && (num <= 0 ==> q * den <= 0)
  {
    var b: int := Abs(den);
    var q, r := DivMod(Abs(num) + b / 2, b);
    MulSign(q, b);
    assert q * b >= 0;
    assert DivRoundHalfAway(num, den) * den == if num < 0 then -(q * b) else q * b;
  }

  /** Only one integer meets that description. */
  lemma NearestIsUnique(num: int, den: int, q: int)
    requires den != 0
    requires 2 * Abs(num - q * den) <= Abs(den)
    requires 2 * Abs(num - q * den) == Abs(den) ==> Abs(num) < Abs(q * den)
    ensures q == DivRoundHalfAway(num, den)
  {
    var p := DivRoundHalfAway(num, den);
    RoundsToNearest(num, den);
    hide DivRoundHalfAway;
    MultipleSize(p, den);
    MultipleSize(q, den);
    MultipleSize(p - q, den);
    MulSub(p, q, den);
    SameMultiple(num, p * den, q * den, Abs(den));
  }

  lemma MulSub(p: int, q: int, den: int)
    ensures (p - q) * den == p * den - q * den
  {
  }

  /** Two multiples of b that are both nearest to num, ties going away from zero, are the same. */
  lemma SameMultiple(num: int, e: int, f: int, b: int)
    requires b > 0
    requires e == 0 || Abs(e) >= b
    requires f == 0 || Abs(f) >= b
    requires e == f || Abs(e - f) >= b
    requires 2 * Abs(num - e) <= b && (2 * Abs(num - e) == b ==> Abs(num) < Abs(e))
    requires 2 * Abs(num - f) <= b && (2 * Abs(num - f) == b ==> Abs(num) < Abs(f))
    ensures e == f
  {
  }

  lemma MultipleSize(q: int, b: int)
    ensures q == 0 ==> q * b == 0
    ensures q != 0 ==> Abs(q * b) >= Abs(b)
    ensures Abs(q) >= 2 ==> Abs(q * b) >= 2 * Abs(b)
  {
    var m, n := Abs(q), Abs(b);
    MulSign(m, n);
    if m >= 1 {
      NonNegative(m - 1, n);
      assert (m - 1) * n == m * n - n;
    }
    if m >= 2 {
      NonNegative(m - 2, n);
      assert (m - 2) * n == m * n - 2 * n;
    }
  }

  lemma RoundOfMultiple(q: int, den: int)
    requires den != 0
    ensures DivRoundHalfAway(q * den, den) == q
  {
    assert Abs(q * den - q * den) == 0;
    NearestIsUnique(q * den, den, q);
  }
}
