/** Exact fixed-point money: a signed 64-bit count of micro-units and a currency. */
module Moneys {
  import opened Integers
  import opened Wrappers
  import opened Decimals
  import opened Rounding

  const INT64_MAX: int := 0x7FFF_FFFF_FFFF_FFFF
  const INT64_MIN: int := -0x8000_0000_0000_0000

  type Int64 = x: int | INT64_MIN <= x <= INT64_MAX

  const SCALE := 6
  const ONE: int := 1000000

  datatype Money = Money(u: Int64, ccy: int)

  datatype MoneyError = Malformed | TooLarge | Overflow | DifferentCurrencies | DivisionByZero | NoParts

  function Clamp(v: int): Result<Int64, MoneyError>
  {
    if v > INT64_MAX || v < INT64_MIN then Err(Overflow) else Ok(v)
  }

  // ----- arithmetic

  function Add(a: Money, b: Money): Result<Money, MoneyError>
  {
    if a.ccy != b.ccy then Err(DifferentCurrencies)
    else
      var v :- Clamp(a.u + b.u);
      Ok(Money(v, a.ccy))
  }

  function Sub(a: Money, b: Money): Result<Money, MoneyError>
  {
    if a.ccy != b.ccy then Err(DifferentCurrencies)
    else
      var v :- Clamp(a.u - b.u);
      Ok(Money(v, a.ccy))
  }

  function MulQty(a: Money, qty: Money): Result<Money, MoneyError>
  {
    var v :- Clamp(DivRoundHalfAway(a.u * qty.u, ONE));
    Ok(Money(v, a.ccy))
  }

  function Percent(a: Money, pct: Money): Result<Money, MoneyError>
  {
    var v :- Clamp(DivRoundHalfAway(a.u * pct.u, ONE * 100));
    Ok(Money(v, a.ccy))
  }

  function ConvertTo(a: Money, toCcy: int, rate: Int64): Result<Money, MoneyError>
  {
    var v :- Clamp(DivRoundHalfAway(a.u * rate, ONE));
    Ok(Money(v, toCcy))
  }

  function ImpliedRate(a: Money, received: Money): Result<Int64, MoneyError>
  {
    if a.u == 0 then Err(DivisionByZero) else Clamp(DivRoundHalfAway(received.u * ONE, a.u))
  }

  function Places(dp: int): nat
  {
    if dp < 0 then 0 else if dp > SCALE then SCALE else dp
  }

  /** The unit that an amount is rounded to at dp decimal places, in micros. */
  function Unit(dp: int): (f: nat)
    ensures f >= 1
  {
    Pow10(SCALE - Places(dp))
  }

  function RoundTo(a: Money, dp: int): Result<Money, MoneyError>
  {
    if dp >= SCALE then Ok(a)
    else
      var v :- Clamp(DivRoundHalfAway(a.u, Unit(dp)) * Unit(dp));
      Ok(Money(v, a.ccy))
  }

  lemma Units()
    ensures Pow10(0) == 1 && Pow10(1) == 10 && Pow10(2) == 100 && Pow10(3) == 1000
    ensures Pow10(4) == 10000 && Pow10(5) == 100000 && Pow10(6) == ONE
  {
    assert Pow10(1) == 10 * Pow10(0);
    assert Pow10(2) == 10 * Pow10(1);
    assert Pow10(3) == 10 * Pow10(2);
    assert Pow10(4) == 10 * Pow10(3);
    assert Pow10(5) == 10 * Pow10(4);
    assert Pow10(6) == 10 * Pow10(5);
  }

  /** A rounded amount is a multiple of the unit within half a unit of the amount. */
  lemma RoundToNearest(a: Money, dp: int)
    requires RoundTo(a, dp).Ok?
    ensures var r := RoundTo(a, dp).value;
            && r.ccy == a.ccy
            && (exists q: int :: r.u == q * Unit(dp))
            && 2 * Abs(a.u - r.u) <= Unit(dp)
  {
    if dp >= SCALE {
      assert a.u == a.u * Unit(dp);
    } else {
      RoundsToNearest(a.u, Unit(dp));
    }
  }

  lemma RoundToFixesMultiples(a: Money, dp: int, q: int)
    requires a.u == q * Unit(dp)
    ensures RoundTo(a, dp) == Ok(a)
  {
    if dp < SCALE {
      RoundOfMultiple(q, Unit(dp));
    }
  }

  /** Products, percentages, conversions and derived rates are the nearest representable results. */
  lemma OperationsAreNearest(a: Money, b: Money, toCcy: int, rate: Int64)
    ensures MulQty(a, b).Ok? ==> 2 * Abs(a.u * b.u - MulQty(a, b).value.u * ONE) <= ONE
    ensures Percent(a, b).Ok? ==> 2 * Abs(a.u * b.u - Percent(a, b).value.u * (ONE * 100)) <= ONE * 100
    ensures ConvertTo(a, toCcy, rate).Ok? ==> 2 * Abs(a.u * rate - ConvertTo(a, toCcy, rate).value.u * ONE) <= ONE
    ensures ImpliedRate(a, b).Ok? ==> a.u != 0 && 2 * Abs(b.u * ONE - ImpliedRate(a, b).value * a.u) <= Abs(a.u)
  {
    RoundsToNearest(a.u * b.u, ONE);
    RoundsToNearest(a.u * b.u, ONE * 100);
    RoundsToNearest(a.u * rate, ONE);
    if a.u != 0 {
      RoundsToNearest(b.u * ONE, a.u);
    }
    hide DivRoundHalfAway;
  }

  // ----- splitting

  function Sum(parts: seq<Money>): int
  {
    if parts == [] then 0 else Sum(parts[..|parts| - 1]) + parts[|parts| - 1].u
  }

  method Split(a: Money, n: int) returns (r: Result<seq<Money>, MoneyError>)
    ensures r.Ok? <==> n > 0
    ensures r.Ok? ==> |r.value| == n && Sum(r.value) == a.u
    ensures r.Ok? ==> forall i, j :: 0 <= i < n && 0 <= j < n ==> Abs(r.value[i].u - r.value[j].u) <= 1
    ensures r.Ok? ==> forall i, j :: 0 <= i < j < n ==> Abs(r.value[i].u) >= Abs(r.value[j].u)
    ensures r.Ok? ==> forall i :: 0 <= i < n ==> r.value[i].ccy == a.ccy
  {
    if n <= 0 {
      return Err(NoParts);
    }
    var base := TruncDiv(a.u, n);
    var rem := a.u - base * n;
    SplitFacts(a.u, n);
    hide TruncDiv;
    var step := if rem < 0 then -1 else 1;
    ghost var first := rem;
    var out: seq<Money> := [];
    for i := 0 to n
      invariant |out| == i
      invariant rem == if Abs(first) <= i then 0 else first - step * i
      invariant Sum(out) == base * i + (first - rem)
      invariant Parts(out, base, step, Abs(first), a.ccy)
    {
      var v := base;
      if rem != 0 {
        v := v + step;
        rem := rem - step;
      }
      OnePart(out, base, step, Abs(first), a.ccy, Money(v, a.ccy));
      hide Parts, Sum;
      out := out + [Money(v, a.ccy)];
    }
    PartsInOrder(out, base, step, Abs(first), a.ccy);
    r := Ok(out);
  }

  /** The first parts are one step farther from zero. */
  predicate Parts(parts: seq<Money>, base: int, step: int, farther: nat, ccy: int)
  {
    forall k :: 0 <= k < |parts| ==> parts[k].ccy == ccy && parts[k].u == if k < farther then base + step else base
  }

  lemma OnePart(parts: seq<Money>, base: int, step: int, farther: nat, ccy: int, m: Money)
    requires Parts(parts, base, step, farther, ccy)
    requires m.ccy == ccy && m.u == if |parts| < farther then base + step else base
    ensures Parts(parts + [m], base, step, farther, ccy) && Sum(parts + [m]) == Sum(parts) + m.u
    ensures base * (|parts| + 1) == base * |parts| + base
  {
    assert (parts + [m])[..|parts|] == parts;
  }

  lemma PartsInOrder(parts: seq<Money>, base: int, step: int, farther: nat, ccy: int)
    requires Parts(parts, base, step, farther, ccy)
    requires (base >= 0 && step == 1) || (base <= 0 && step == -1) || farther == 0
    ensures forall i, j :: 0 <= i < |parts| && 0 <= j < |parts| ==> Abs(parts[i].u - parts[j].u) <= 1
    ensures forall i, j :: 0 <= i < j < |parts| ==> Abs(parts[i].u) >= Abs(parts[j].u)
  {
  }

  /** Every part fits: a quotient may go one step further from zero only if there is a remainder. */
  lemma SplitFacts(u: Int64, n: int)
    requires n > 0
    ensures var base := TruncDiv(u, n);
            var rem := u - base * n;
            && Abs(rem) < n
            && INT64_MIN <= base <= INT64_MAX
            && (rem > 0 ==> 0 <= base && base + 1 <= INT64_MAX) && (rem < 0 ==> base <= 0 && base - 1 >= INT64_MIN)
  {
    TruncDivFacts(u, n);
    var base: int := TruncDiv(u, n);
    hide TruncDiv;
    FartherFromZero(base, n, base * n);
  }

  lemma FartherFromZero(base: int, n: int, p: int)
    requires n > 0 && p == base * n
    ensures base >= 0 ==> p >= base
    ensures base <= 0 ==> p <= base
  {
    if base >= 0 {
      assert base * (n - 1) >= 0;
    } else {
      assert (-base) * (n - 1) >= 0;
    }
  }
}
