/** What the amounts of a computed line are: gross, base and every tax, from prices, quantities and rates alone. */
module LineAmounts {
  import opened Integers
  import opened Wrappers
  import opened Rounding
  import opened Moneys
  import opened TaxEngine

  /** An amount is product / scale, rounded to a micro and then to the unit. */
  predicate Near(amount: int, product: int, scale: int, unit: int)
  {
    2 * Abs(amount * scale - product) <= scale * (unit + 1)
  }

  lemma NearAfterRounding(product: int, scale: int, v: int, amount: int, unit: int)
    requires scale > 0 && 2 * Abs(product - v * scale) <= scale && 2 * Abs(v - amount) <= unit
    ensures Near(amount, product, scale, unit)
  {
    DistanceScaled(v, amount, scale);
    MulMono(2 * Abs(v - amount), unit, scale);
    assert scale * (unit + 1) == unit * scale + scale;
  }

  lemma DistanceScaled(v: int, amount: int, scale: int)
    requires scale > 0
    ensures Abs(v * scale - amount * scale) == Abs(v - amount) * scale
    ensures 2 * Abs(v - amount) * scale == 2 * (Abs(v - amount) * scale)
  {
    assert v * scale - amount * scale == (v - amount) * scale;
    MulSign(v - amount, scale);
  }

  // ----- the gross

  /** The gross of a line before discount, discount, and rounding, by their distances from the exact products. */
  lemma GrossSteps(priceUnit: Money, quantity: Money, discountPct: Money, dp: int) returns (first: int, discount: int)
    requires Gross(priceUnit, quantity, discountPct, dp).Ok?
    ensures 2 * Abs(priceUnit.u * quantity.u - first * ONE) <= ONE
    ensures 2 * Abs(first * discountPct.u - discount * HUNDRED) <= HUNDRED
    ensures 2 * Abs(first - discount - Gross(priceUnit, quantity, discountPct, dp).value.u) <= Unit(dp)
  {
    var a := MulQty(priceUnit, quantity).value;
    first := a.u;
    RoundsToNearest(priceUnit.u * quantity.u, ONE);
    var net := Unrounded(priceUnit, quantity, discountPct).value;
    if discountPct.u == 0 {
      discount := 0;
      assert first * discountPct.u == 0;
    } else {
      discount := Percent(a, discountPct).value.u;
      RoundsToNearest(first * discountPct.u, ONE * 100);
    }
    hide DivRoundHalfAway;
    assert net.u == first - discount;
    RoundToNearest(net, dp);
  }

  /** An amount is the product pq less its d percent, rounded twice to a micro and once to the unit. */
  predicate Discounted(g: int, pq: int, d: int, unit: int)
  {
    2 * Abs(g * (ONE * HUNDRED) - pq * (HUNDRED - d))
    <= ONE * HUNDRED * (unit + 1) + ONE * Abs(HUNDRED - d)
  }

  lemma DiscountArithmetic(pq: int, d: int, first: int, discount: int, g: int, unit: int)
    requires 2 * Abs(pq - first * ONE) <= ONE
    requires 2 * Abs(first * d - discount * HUNDRED) <= HUNDRED
    requires 2 * Abs(first - discount - g) <= unit
    ensures Discounted(g, pq, d, unit)
  {
    var k, e := HUNDRED - d, first * ONE - pq;
    AbsScaled(e, k);
    Multiplied(first, pq, d, k, e);
    SumOfErrors(pq * k, first * d, e * k, Abs(k), first, discount, g, unit);
  }

  lemma Multiplied(first: int, pq: int, d: int, k: int, e: int)
    requires k == HUNDRED - d && e == first * ONE - pq
    ensures pq * k == ONE * (first * HUNDRED - first * d) - e * k
  {
    assert e * k == first * ONE * k - pq * k;
    assert first * k == first * HUNDRED - first * d;
  }

  lemma SumOfErrors(pqk: int, fd: int, ek: int, ak: nat, first: int, discount: int, g: int, unit: int)
    requires pqk == ONE * (first * HUNDRED - fd) - ek && 2 * Abs(ek) <= ONE * ak
    requires 2 * Abs(fd - discount * HUNDRED) <= HUNDRED && 2 * Abs(first - discount - g) <= unit
    ensures 2 * Abs(g * (ONE * HUNDRED) - pqk) <= ONE * HUNDRED * (unit + 1) + ONE * ak
  {
  }

  lemma AbsScaled(e: int, k: int)
    requires 2 * Abs(e) <= ONE
    ensures 2 * Abs(e * k) <= ONE * Abs(k)
  {
    MulSign(Abs(e), Abs(k));
    assert Abs(e * k) == Abs(e) * Abs(k) by { MulSign(e, k); NonNegative(Abs(e), Abs(k)); }
    MulMono(2 * Abs(e), ONE, Abs(k));
  }

  /**
   Base and inclusive taxes together are price times quantity less the discount percentage, rounded twice to a micro and
   once to the unit at dp.
   */
  lemma GrossIsDiscounted(priceUnit: Money, quantity: Money, discountPct: Money, taxes: seq<TaxDef>, dp: int)
    requires ComputeLine(priceUnit, quantity, discountPct, taxes, dp).Ok?
    ensures Inclusive(taxes) <= |ComputeLine(priceUnit, quantity, discountPct, taxes, dp).value.components|
    ensures var c := ComputeLine(priceUnit, quantity, discountPct, taxes, dp).value;
            var g := c.baseExcluded.u + Total(c.components[..Inclusive(taxes)]);
            Discounted(g, priceUnit.u * quantity.u, discountPct.u, Unit(dp))
  {
    hide ComputeTaxes, Gross, Unit, Inclusive, Total, Discounted, StableSort, Unrounded;
    NoMicroIsLost(priceUnit, quantity, discountPct, taxes, dp);
    var first, discount := GrossSteps(priceUnit, quantity, discountPct, dp);
    DiscountArithmetic(priceUnit.u * quantity.u, discountPct.u, first, discount,
                       Gross(priceUnit, quantity, discountPct, dp).value.u, Unit(dp));
  }

  // ----- which taxes are included, and in which order the components come

  /** The taxes that are included in the price, or those that are not, with one sequence number, in the order given. */
  function Given(taxes: seq<TaxDef>, inclusive: bool, q: int): seq<TaxDef>
  {
    if taxes == [] then []
    else
      var last := taxes[|taxes| - 1];
      Given(taxes[..|taxes| - 1], inclusive, q) + (if last.priceInclude == inclusive && last.sequence == q then [last] else [])
  }

  lemma {:induction false} SelectedGiven(taxes: seq<TaxDef>, inclusive: bool, q: int)
    ensures WithSequence(Select(taxes, inclusive), q) == Given(taxes, inclusive, q)
  {
    if taxes != [] {
      var init, last := taxes[..|taxes| - 1], taxes[|taxes| - 1];
      SelectedGiven(init, inclusive, q);
      var selected := Select(taxes, inclusive);
      assert forall some: seq<TaxDef> :: some + [] == some;
      if last.priceInclude == inclusive {
        assert selected[..|selected| - 1] == Select(init, inclusive) && selected[|selected| - 1] == last;
      }
    }
  }

  lemma {:induction false} GivenBySequence(taxes: seq<TaxDef>, inclusive: bool, q: int)
    ensures Given(taxes, inclusive, q) == Select(WithSequence(taxes, q), inclusive)
  {
    if taxes != [] {
      var init, last := taxes[..|taxes| - 1], taxes[|taxes| - 1];
      GivenBySequence(init, inclusive, q);
      var same := WithSequence(taxes, q);
      assert forall some: seq<TaxDef> :: some + [] == some;
      if last.sequence == q {
        assert same[..|same| - 1] == WithSequence(init, q) && same[|same| - 1] == last;
      }
    }
  }

  lemma {:induction false} SelectedOrdered(taxes: seq<TaxDef>, inclusive: bool)
    requires Ordered(taxes)
    ensures Ordered(Select(taxes, inclusive))
    ensures forall t :: t in Select(taxes, inclusive) ==> t in taxes
  {
    if taxes != [] {
      var init, last := taxes[..|taxes| - 1], taxes[|taxes| - 1];
      assert taxes == init + [last];
      SelectedOrdered(init, inclusive);
      forall t | t in Select(init, inclusive) ensures t.sequence <= last.sequence {
        var i :| 0 <= i < |init| && init[i] == t;
        assert taxes[i].sequence <= taxes[|taxes| - 1].sequence;
      }
    }
  }

  /**
   The taxes of one kind in the order of their components: all of them and no others, by sequence number, and in the
   order given among equal numbers.
   */
  lemma ComponentOrder(taxes: seq<TaxDef>, inclusive: bool, q: int)
    ensures var part := Select(StableSort(taxes), inclusive);
            && Ordered(part) && WithSequence(part, q) == Given(taxes, inclusive, q)
            && forall i :: 0 <= i < |part| ==> part[i].priceInclude == inclusive
  {
    var sorted := StableSort(taxes);
    StableSortFacts(taxes, q);
    SelectedOrdered(sorted, inclusive);
    SelectedGiven(sorted, inclusive, q);
    GivenBySequence(sorted, inclusive, q);
    GivenBySequence(taxes, inclusive, q);
    hide StableSort, Select, WithSequence, Given;
  }

  // ----- the taxes

  /** A fixed tax is its rate times the quantity, a percentage its share of the base, each rounded twice. */
  predicate OwnAmount(amount: int, t: TaxDef, base: int, quantity: int, unit: int)
  {
    if t.amountType == "fixed" then Near(amount, t.rate.u * quantity, ONE, unit)
    else Near(amount, base * t.rate.u, HUNDRED, unit)
  }

  lemma FixedIsOwn(t: TaxDef, quantity: Money, ccy: int, dp: int)
    requires FixedAmount(t, quantity, ccy).Ok? && RoundTo(FixedAmount(t, quantity, ccy).value, dp).Ok?
    ensures Near(RoundTo(FixedAmount(t, quantity, ccy).value, dp).value.u, t.rate.u * quantity.u, ONE, Unit(dp))
  {
    var v := FixedAmount(t, quantity, ccy).value;
    RoundsToNearest(t.rate.u * quantity.u, ONE);
    hide DivRoundHalfAway;
    RoundToNearest(v, dp);
    NearAfterRounding(t.rate.u * quantity.u, ONE, v.u, RoundTo(v, dp).value.u, Unit(dp));
  }

  lemma ExclusiveIsOwn(t: TaxDef, base: Money, quantity: Money, dp: int)
    requires ExclusiveAmount(t, base, quantity, dp).Ok?
    ensures OwnAmount(ExclusiveAmount(t, base, quantity, dp).value.u, t, base.u, quantity.u, Unit(dp))
  {
    if t.amountType == "fixed" {
      FixedIsOwn(t, quantity, base.ccy, dp);
    } else {
      var v := Percent(base, t.rate).value;
      RoundsToNearest(base.u * t.rate.u, ONE * 100);
      hide DivRoundHalfAway;
      RoundToNearest(v, dp);
      NearAfterRounding(base.u * t.rate.u, HUNDRED, v.u, RoundTo(v, dp).value.u, Unit(dp));
    }
  }

  /** What an included tax other than the last receives, unless the 64-bit cast loses bits. */
  predicate IncludedAmount(amount: int, t: TaxDef, taxTotal: int, rates: int, quantity: int, unit: int)
  {
    if t.amountType == "fixed" then Near(amount, t.rate.u * quantity, ONE, unit)
    else if rates == 0 then amount == 0
    else rates > 0 && INT64_MIN <= TruncDiv(taxTotal * t.rate.u, rates) <= INT64_MAX
         ==> 2 * Abs(amount * rates - taxTotal * t.rate.u) < (unit + 2) * rates
  }

  lemma ShareIsIncluded(t: TaxDef, taxTotal: Money, rateSum: Money, quantity: Money, dp: int)
    requires Share(t, taxTotal, rateSum, quantity, dp).Ok?
    ensures IncludedAmount(Share(t, taxTotal, rateSum, quantity, dp).value.u, t, taxTotal.u, rateSum.u, quantity.u, Unit(dp))
  {
    if t.amountType == "fixed" {
      FixedIsOwn(t, quantity, taxTotal.ccy, dp);
    } else if rateSum.u > 0 && INT64_MIN <= TruncDiv(taxTotal.u * t.rate.u, rateSum.u) <= INT64_MAX {
      ShareIsProportional(t, taxTotal, rateSum, quantity, dp);
    }
  }

  predicate AllIncluded(components: seq<Component>, incl: seq<TaxDef>, taxTotal: int, rates: int, quantity: int, unit: int)
  {
    |components| <= |incl|
    && forall i :: 0 <= i < |components| && i < |incl| - 1 ==>
         IncludedAmount(components[i].amount.u, incl[i], taxTotal, rates, quantity, unit)
  }

  lemma {:induction false} SharesAreIncluded(incl: seq<TaxDef>, k: nat, base: Money, taxTotal: Money, rateSum: Money,
                                             quantity: Money, dp: int)
    requires k <= |incl| && Distribute(incl, k, base, taxTotal, rateSum, quantity, dp).Ok?
    ensures AllIncluded(Distribute(incl, k, base, taxTotal, rateSum, quantity, dp).value.components, incl, taxTotal.u,
                        rateSum.u, quantity.u, Unit(dp))
  {
    hide Share, IncludedAmount, Unit;
    if k > 0 {
      SharesAreIncluded(incl, k - 1, base, taxTotal, rateSum, quantity, dp);
      if k < |incl| {
        ShareIsIncluded(incl[k - 1], taxTotal, rateSum, quantity, dp);
      }
    }
  }

  predicate AllOwn(components: seq<Component>, excl: seq<TaxDef>, base: int, quantity: int, unit: int)
  {
    |components| == |excl|
    && forall i :: 0 <= i < |components| ==> OwnAmount(components[i].amount.u, excl[i], base, quantity, unit)
  }

  lemma {:induction false} ExclusiveAreOwn(excl: seq<TaxDef>, base: Money, quantity: Money, dp: int)
    requires ExclusiveComponents(excl, base, quantity, dp).Ok?
    ensures AllOwn(ExclusiveComponents(excl, base, quantity, dp).value, excl, base.u, quantity.u, Unit(dp))
  {
    hide ExclusiveAmount, OwnAmount, Unit;
    if excl != [] {
      ExclusiveAreOwn(excl[..|excl| - 1], base, quantity, dp);
      ExclusiveIsOwn(excl[|excl| - 1], base, quantity, dp);
    }
  }

  /** The base without taxes: gross less fixed taxes, and less the percentages when there are any. */
  predicate BaseUnwound(base: int, gross: int, rates: int, fixed: int, unit: int)
  {
    if rates == 0 then base == gross - fixed
    else HUNDRED + rates > 0 && INT64_MIN <= TruncDiv((gross - fixed) * HUNDRED, HUNDRED + rates) <= INT64_MAX
         ==> 2 * Abs(base * (HUNDRED + rates) - (gross - fixed) * HUNDRED) < (unit + 2) * (HUNDRED + rates)
  }

  lemma UnwoundIsBase(gross: Money, s: Sums, dp: int)
    requires UnwoundBase(gross, s, dp).Ok?
    ensures BaseUnwound(UnwoundBase(gross, s, dp).value.u, gross.u, s.rateSum.u, s.fixedSum.u, Unit(dp))
  {
    var d, g := HUNDRED + s.rateSum.u, gross.u - s.fixedSum.u;
    if s.rateSum.u != 0 && d > 0 && INT64_MIN <= TruncDiv(g * HUNDRED, d) <= INT64_MAX {
      UnwoundBaseAccuracy(gross, s, dp);
    }
  }

  // ----- the line

  /** The amounts of a line with these inclusive and exclusive taxes. */
  predicate Amounts(c: Computation, incl: seq<TaxDef>, excl: seq<TaxDef>, rates: int, fixed: int, quantity: int, unit: int)
  {
    && |incl| <= |c.components|
    && var taxTotal := Total(c.components[..|incl|]);
       && BaseUnwound(c.baseExcluded.u, c.baseExcluded.u + taxTotal, rates, fixed, unit)
       && AllIncluded(c.components[..|incl|], incl, taxTotal, rates, quantity, unit)
       && AllOwn(c.components[|incl|..], excl, c.baseExcluded.u, quantity, unit)
  }

  lemma PartsHaveAmounts(c: Computation, d: seq<Component>, e: seq<Component>, incl: seq<TaxDef>, excl: seq<TaxDef>,
                         gross: int, rates: int, fixed: int, quantity: int, unit: int)
    requires c.components == d + e && |d| == |incl| && Total(d) == gross - c.baseExcluded.u
    requires BaseUnwound(c.baseExcluded.u, gross, rates, fixed, unit)
    requires AllIncluded(d, incl, gross - c.baseExcluded.u, rates, quantity, unit)
    requires AllOwn(e, excl, c.baseExcluded.u, quantity, unit)
    ensures Amounts(c, incl, excl, rates, fixed, quantity, unit)
  {
    assert (d + e)[..|d|] == d && (d + e)[|d|..] == e;
    hide BaseUnwound, AllIncluded, AllOwn, Total;
  }

  lemma InclusiveAmounts(gross: Money, s: Sums, incl: seq<TaxDef>, base: Money, quantity: Money, dp: int)
    requires incl != [] && UnwoundBase(gross, s, dp) == Ok(base) && Sub(gross, base).Ok?
    requires Distribute(incl, |incl|, base, Sub(gross, base).value, s.rateSum, quantity, dp).Ok?
    ensures var d := Distribute(incl, |incl|, base, Sub(gross, base).value, s.rateSum, quantity, dp).value.components;
            && Total(d) == gross.u - base.u
            && BaseUnwound(base.u, gross.u, s.rateSum.u, s.fixedSum.u, Unit(dp))
            && AllIncluded(d, incl, gross.u - base.u, s.rateSum.u, quantity.u, Unit(dp))
  {
    UnwoundIsBase(gross, s, dp);
    SharesAreIncluded(incl, |incl|, base, Sub(gross, base).value, s.rateSum, quantity, dp);
    GivenIsTotal(incl, |incl|, base, Sub(gross, base).value, s.rateSum, quantity, dp);
    hide UnwoundBase, Distribute, BaseUnwound, AllIncluded, Total, Unit;
  }

  lemma TaxesHaveAmounts(gross: Money, quantity: Money, sorted: seq<TaxDef>, dp: int)
    requires ComputeTaxes(gross, quantity, sorted, dp).Ok?
    ensures Amounts(ComputeTaxes(gross, quantity, sorted, dp).value, Select(sorted, true), Select(sorted, false),
                    InclusiveRate(sorted), InclusiveFixed(sorted, quantity), quantity.u, Unit(dp))
  {
    var incl, excl := Select(sorted, true), Select(sorted, false);
    var c := ComputeTaxes(gross, quantity, sorted, dp).value;
    SumsAreTotals(sorted, quantity, gross.ccy);
    NoSums(quantity, gross.ccy);
    var s, d, e := PartsOfLine(gross, quantity, sorted, dp);
    hide ComputeTaxes, Select, InclusiveSums, UnwoundBase, Distribute, ExclusiveComponents, InclusiveRate, InclusiveFixed;
    hide Unit, BaseUnwound, AllIncluded, AllOwn, Amounts, Total;
    ExclusiveAreOwn(excl, c.baseExcluded, quantity, dp);
    IncludedPart(gross, s, incl, c.baseExcluded, quantity, dp, d);
    PartsHaveAmounts(c, d, e, incl, excl, gross.u, s.rateSum.u, s.fixedSum.u, quantity.u, Unit(dp));
  }

  lemma IncludedPart(gross: Money, s: Sums, incl: seq<TaxDef>, base: Money, quantity: Money, dp: int, d: seq<Component>)
    requires incl == [] ==> base == gross && d == [] && s.rateSum.u == 0 && s.fixedSum.u == 0
    requires incl != [] ==>
               && UnwoundBase(gross, s, dp) == Ok(base) && Sub(gross, base).Ok?
               && var all := Distribute(incl, |incl|, base, Sub(gross, base).value, s.rateSum, quantity, dp);
                  all.Ok? && d == all.value.components
    ensures |d| == |incl| && Total(d) == gross.u - base.u
    ensures BaseUnwound(base.u, gross.u, s.rateSum.u, s.fixedSum.u, Unit(dp))
    ensures AllIncluded(d, incl, gross.u - base.u, s.rateSum.u, quantity.u, Unit(dp))
  {
    hide UnwoundBase, Distribute, BaseUnwound, AllIncluded, Total, Unit;
    if incl == [] {
      NothingIncluded(gross.u, s.rateSum.u, quantity.u, Unit(dp));
    } else {
      InclusiveAmounts(gross, s, incl, base, quantity, dp);
    }
  }

  lemma NothingIncluded(gross: int, rates: int, quantity: int, unit: int)
    ensures BaseUnwound(gross, gross, 0, 0, unit) && AllIncluded([], [], 0, rates, quantity, unit) && Total([]) == 0
  {
  }

  /**
   Every amount of a line: the base is what the inclusive taxes leave of the gross, each inclusive tax but the last is a
   fixed amount or its proportion, and each exclusive tax its own amount on the base.
   */
  lemma AmountsOfLine(priceUnit: Money, quantity: Money, discountPct: Money, taxes: seq<TaxDef>, dp: int)
    requires taxes != [] && ComputeLine(priceUnit, quantity, discountPct, taxes, dp).Ok?
    ensures var sorted := StableSort(taxes);
            Amounts(ComputeLine(priceUnit, quantity, discountPct, taxes, dp).value, Select(sorted, true), Select(sorted, false),
                    InclusiveRate(taxes), InclusiveFixed(taxes, quantity), quantity.u, Unit(dp))
  {
    hide ComputeTaxes, Select, StableSort, Gross, InclusiveRate, InclusiveFixed, Amounts, Unit;
    SortKeepsSums(taxes, quantity);
    TaxesHaveAmounts(Gross(priceUnit, quantity, discountPct, dp).value, quantity, StableSort(taxes), dp);
  }
}
