/** The amounts of a line as they are printed: when each of them is a multiple of the unit at dp. */
module TaxColumns {
  import opened Integers
  import opened Wrappers
  import opened Rounding
  import opened Moneys
  import opened TaxEngine

  predicate Multiple(v: int, unit: int)
    requires unit > 0
  {
    v % unit == 0
  }

  lemma MultipleOf(q: int, unit: int)
    requires unit > 0
    ensures Multiple(q * unit, unit)
  {
    MultipleHasNoRemainder(q, unit);
  }

  lemma MultipleSum(a: int, b: int, unit: int)
    requires unit > 0 && Multiple(b, unit)
    ensures Multiple(a + b, unit) <==> Multiple(a, unit)
    ensures Multiple(a - b, unit) <==> Multiple(a, unit)
  {
    var q, p := a / unit, b / unit;
    var r := a % unit;
    assert a == q * unit + r && b == p * unit;
    Quotients(q, p, unit);
    SameRemainder(q + p, r, unit);
    SameRemainder(q - p, r, unit);
  }

  lemma Quotients(q: int, p: int, unit: int)
    ensures (q + p) * unit == q * unit + p * unit && (q - p) * unit == q * unit - p * unit
  {
  }

  lemma SameRemainder(q: int, r: int, unit: int)
    requires 0 <= r < unit
    ensures Multiple(q * unit + r, unit) <==> r == 0
  {
    var v := q * unit + r;
    if v % unit == 0 {
      var p := v / unit;
      assert v == p * unit;
      MultipleSize(p - q, unit);
      Quotients(p, q, unit);
    } else if r == 0 {
      MultipleOf(q, unit);
    }
  }

  lemma RoundedIsMultiple(a: Money, dp: int)
    requires RoundTo(a, dp).Ok?
    ensures Multiple(RoundTo(a, dp).value.u, Unit(dp))
  {
    RoundToNearest(a, dp);
    hide RoundTo, Unit, Multiple;
    var q: int :| RoundTo(a, dp).value.u == q * Unit(dp);
    MultipleOf(q, Unit(dp));
  }

  // ----- the parts of a line

  predicate AllMultiples(components: seq<Component>, unit: int)
    requires unit > 0
  {
    forall i :: 0 <= i < |components| ==> Multiple(components[i].amount.u, unit)
  }

  lemma {:induction false} TotalOfMultiples(components: seq<Component>, unit: int)
    requires unit > 0 && AllMultiples(components, unit)
    ensures Multiple(Total(components), unit)
  {
    if components != [] {
      var init, last := components[..|components| - 1], components[|components| - 1];
      TotalOfMultiples(init, unit);
      MultipleSum(Total(init), last.amount.u, unit);
    }
  }

  lemma ShareIsMultiple(t: TaxDef, taxTotal: Money, rateSum: Money, quantity: Money, dp: int)
    requires Share(t, taxTotal, rateSum, quantity, dp).Ok?
    ensures Multiple(Share(t, taxTotal, rateSum, quantity, dp).value.u, Unit(dp))
  {
    hide RoundTo, Multiple, Unit, TruncDiv, Narrow, FixedAmount;
    if t.amountType == "fixed" {
      RoundedIsMultiple(FixedAmount(t, quantity, taxTotal.ccy).value, dp);
    } else if rateSum.u != 0 {
      RoundedIsMultiple(Money(Narrow(TruncDiv(taxTotal.u * t.rate.u, rateSum.u)), taxTotal.ccy), dp);
    } else {
      MultipleOf(0, Unit(dp));
    }
  }

  /** All inclusive taxes but the last receive multiples of the unit. */
  lemma {:induction false} SharesAreMultiples(incl: seq<TaxDef>, k: nat, base: Money, taxTotal: Money, rateSum: Money,
                                              quantity: Money, dp: int)
    requires k < |incl| && Distribute(incl, k, base, taxTotal, rateSum, quantity, dp).Ok?
    ensures AllMultiples(Distribute(incl, k, base, taxTotal, rateSum, quantity, dp).value.components, Unit(dp))
  {
    hide Share, Multiple, Unit;
    if k > 0 {
      SharesAreMultiples(incl, k - 1, base, taxTotal, rateSum, quantity, dp);
      ShareIsMultiple(incl[k - 1], taxTotal, rateSum, quantity, dp);
    }
  }

  /** The last one takes what is missing, so it does exactly when the tax as a whole is a multiple. */
  lemma LastShare(incl: seq<TaxDef>, base: Money, taxTotal: Money, rateSum: Money, quantity: Money, dp: int)
    requires incl != [] && Distribute(incl, |incl|, base, taxTotal, rateSum, quantity, dp).Ok?
    ensures AllMultiples(Distribute(incl, |incl|, base, taxTotal, rateSum, quantity, dp).value.components, Unit(dp))
       <==> Multiple(taxTotal.u, Unit(dp))
  {
    var n := |incl| - 1;
    var before, all := Distribute(incl, n, base, taxTotal, rateSum, quantity, dp).value,
                       Distribute(incl, n + 1, base, taxTotal, rateSum, quantity, dp).value;
    SharesAreMultiples(incl, n, base, taxTotal, rateSum, quantity, dp);
    GivenIsTotal(incl, n, base, taxTotal, rateSum, quantity, dp);
    TotalOfMultiples(before.components, Unit(dp));
    MultipleSum(taxTotal.u, before.given.u, Unit(dp));
    hide Multiple, Unit;
    var last := all.components[n];
    assert all.components == before.components + [last] && last.amount.u == taxTotal.u - before.given.u;
    hide Distribute;
    if Multiple(last.amount.u, Unit(dp)) {
      assert forall i :: 0 <= i < n ==> all.components[i] == before.components[i];
    }
  }

  lemma {:induction false} ExclusiveMultiples(excl: seq<TaxDef>, base: Money, quantity: Money, dp: int)
    requires ExclusiveComponents(excl, base, quantity, dp).Ok?
    ensures AllMultiples(ExclusiveComponents(excl, base, quantity, dp).value, Unit(dp))
  {
    if excl != [] {
      var t := excl[|excl| - 1];
      ExclusiveMultiples(excl[..|excl| - 1], base, quantity, dp);
      hide RoundTo, Multiple, Unit, FixedAmount, Percent;
      var amt := if t.amountType == "fixed" then FixedAmount(t, quantity, base.ccy) else Percent(base, t.rate);
      RoundedIsMultiple(amt.value, dp);
    }
  }

  lemma UnwoundMultiple(gross: Money, s: Sums, dp: int)
    requires UnwoundBase(gross, s, dp).Ok? && Multiple(gross.u, Unit(dp))
    ensures Multiple(UnwoundBase(gross, s, dp).value.u, Unit(dp)) <==> s.rateSum.u != 0 || Multiple(s.fixedSum.u, Unit(dp))
  {
    hide RoundTo, Multiple, Unit, TruncDiv, Narrow, MulQty;
    if s.rateSum.u != 0 {
      var net := Sub(gross, s.fixedSum).value;
      var divisor := Add(Money(HUNDRED, 0), s.rateSum).value;
      var numerator := MulQty(net, Money(HUNDRED, 0)).value;
      RoundedIsMultiple(Money(Narrow(TruncDiv(numerator.u * ONE, divisor.u)), gross.ccy), dp);
    } else {
      Difference(gross.u, s.fixedSum.u, Unit(dp));
    }
  }

  lemma Difference(a: int, b: int, unit: int)
    requires unit > 0 && Multiple(a, unit)
    ensures Multiple(a - b, unit) <==> Multiple(b, unit)
  {
    MultipleSum(b - a, a, unit);
    MultipleOf(-1, unit);
    var q := (a - b) / unit;
    if Multiple(a - b, unit) {
      assert a - b == q * unit;
      MultipleSum(b, a - b, unit);
    } else if Multiple(b, unit) {
      MultipleSum(a, b, unit);
    }
  }

  // ----- the line

  /** The base, the tax of each component and both totals are multiples of the unit: what is printed at dp is exact. */
  predicate PrintsExactly(c: Computation, dp: int)
  {
    && Multiple(c.baseExcluded.u, Unit(dp)) && AllMultiples(c.components, Unit(dp))
    && Multiple(c.totalTax.u, Unit(dp)) && Multiple(c.totalIncluded.u, Unit(dp))
  }

  /** The components are all multiples exactly when the inclusive ones are. */
  lemma Components(d: seq<Component>, e: seq<Component>, unit: int)
    requires unit > 0 && AllMultiples(e, unit)
    ensures AllMultiples(d + e, unit) <==> AllMultiples(d, unit)
  {
    if AllMultiples(d + e, unit) {
      forall i | 0 <= i < |d| ensures Multiple(d[i].amount.u, unit) {
        assert (d + e)[i] == d[i];
      }
    }
  }

  lemma PartsAreMultiples(gross: Money, quantity: Money, sorted: seq<TaxDef>, dp: int) returns (d: seq<Component>, e: seq<Component>)
    requires ComputeTaxes(gross, quantity, sorted, dp).Ok? && Multiple(gross.u, Unit(dp))
    ensures var c := ComputeTaxes(gross, quantity, sorted, dp).value;
            && c.components == d + e && AllMultiples(e, Unit(dp))
            && (AllMultiples(d, Unit(dp)) <==> Multiple(c.baseExcluded.u, Unit(dp)))
            && (Multiple(c.baseExcluded.u, Unit(dp))
                <==> InclusiveRate(sorted) != 0 || Multiple(InclusiveFixed(sorted, quantity), Unit(dp)))
  {
    var incl, excl := Select(sorted, true), Select(sorted, false);
    var base := ComputeTaxes(gross, quantity, sorted, dp).value.baseExcluded;
    var s: Sums;
    s, d, e := PartsOfLine(gross, quantity, sorted, dp);
    SumsAreTotals(sorted, quantity, gross.ccy);
    NoSums(quantity, gross.ccy);
    hide ComputeTaxes, Select, InclusiveSums, UnwoundBase, Distribute, ExclusiveComponents, InclusiveRate, InclusiveFixed;
    hide Multiple, Unit;
    ExclusiveMultiples(excl, base, quantity, dp);
    hide AllMultiples;
    if incl == [] {
      MultipleOf(0, Unit(dp));
      assert AllMultiples(d, Unit(dp)) by { NothingToPrint(Unit(dp)); }
    } else {
      InclusivePart(gross, s, incl, base, quantity, dp);
    }
  }

  lemma NothingToPrint(unit: int)
    requires unit > 0
    ensures AllMultiples([], unit)
  {
  }

  lemma InclusivePart(gross: Money, s: Sums, incl: seq<TaxDef>, base: Money, quantity: Money, dp: int)
    requires incl != [] && UnwoundBase(gross, s, dp) == Ok(base) && Sub(gross, base).Ok? && Multiple(gross.u, Unit(dp))
    requires Distribute(incl, |incl|, base, Sub(gross, base).value, s.rateSum, quantity, dp).Ok?
    ensures var d := Distribute(incl, |incl|, base, Sub(gross, base).value, s.rateSum, quantity, dp).value.components;
            && (AllMultiples(d, Unit(dp)) <==> Multiple(base.u, Unit(dp)))
            && (Multiple(base.u, Unit(dp)) <==> s.rateSum.u != 0 || Multiple(s.fixedSum.u, Unit(dp)))
  {
    UnwoundMultiple(gross, s, dp);
    LastShare(incl, base, Sub(gross, base).value, s.rateSum, quantity, dp);
    Difference(gross.u, base.u, Unit(dp));
    hide UnwoundBase, Distribute, AllMultiples, Multiple, Unit;
  }

  lemma PartsPrintExactly(c: Computation, d: seq<Component>, e: seq<Component>, dp: int)
    requires c.components == d + e && AllMultiples(e, Unit(dp))
    requires AllMultiples(d, Unit(dp)) <==> Multiple(c.baseExcluded.u, Unit(dp))
    requires c.totalTax.u == Total(c.components) && c.totalIncluded.u == c.baseExcluded.u + c.totalTax.u
    ensures PrintsExactly(c, dp) <==> Multiple(c.baseExcluded.u, Unit(dp))
  {
    var unit: int := Unit(dp);
    Components(d, e, unit);
    if AllMultiples(d, unit) {
      TotalOfMultiples(c.components, unit);
      MultipleSum(c.baseExcluded.u, c.totalTax.u, unit);
    }
  }

  lemma TaxesPrintExactly(gross: Money, quantity: Money, sorted: seq<TaxDef>, dp: int)
    requires ComputeTaxes(gross, quantity, sorted, dp).Ok? && Multiple(gross.u, Unit(dp))
    ensures PrintsExactly(ComputeTaxes(gross, quantity, sorted, dp).value, dp)
       <==> InclusiveRate(sorted) != 0 || Multiple(InclusiveFixed(sorted, quantity), Unit(dp))
  {
    hide ComputeTaxes, Unit, Multiple, Total, AllMultiples, Select, InclusiveRate, InclusiveFixed, PrintsExactly;
    TaxesAddUp(gross, quantity, sorted, dp);
    var d, e := PartsAreMultiples(gross, quantity, sorted, dp);
    PartsPrintExactly(ComputeTaxes(gross, quantity, sorted, dp).value, d, e, dp);
  }

  /**
   Every printed amount of a line is exact, and so the printed column adds up, exactly when the inclusive percentages do
   not add up to zero, or the inclusive fixed amounts add up to a multiple of the unit at dp.
   */
  lemma PrintsExactlyWhen(priceUnit: Money, quantity: Money, discountPct: Money, taxes: seq<TaxDef>, dp: int)
    requires ComputeLine(priceUnit, quantity, discountPct, taxes, dp).Ok?
    ensures PrintsExactly(ComputeLine(priceUnit, quantity, discountPct, taxes, dp).value, dp)
       <==> InclusiveRate(taxes) != 0 || InclusiveFixed(taxes, quantity) % Unit(dp) == 0
  {
    var unit: int := Unit(dp);
    var gross := Unrounded(priceUnit, quantity, discountPct).value;
    assert Gross(priceUnit, quantity, discountPct, dp) == RoundTo(gross, dp);
    RoundedIsMultiple(gross, dp);
    SortKeepsSums(taxes, quantity);
    MultipleOf(0, unit);
    hide RoundTo, Unit, Unrounded, ComputeTaxes, StableSort;
    if taxes != [] {
      hide InclusiveRate, InclusiveFixed, PrintsExactly;
      TaxesPrintExactly(RoundTo(gross, dp).value, quantity, StableSort(taxes), dp);
    }
  }

  /** A line of 10.00 at two places with a fixed tax of 0.005 included: base and tax both have a third place. */
  lemma FixedTaxKeepsItsPlaces(id: int, name: string)
    ensures var price, one, none := Money(10 * ONE, 0), Money(ONE, 0), Money(0, 0);
            var tax := TaxDef(id, name, Money(5000, 0), "fixed", true, 0);
            var line := ComputeLine(price, one, none, [tax], 2);
            && line == Ok(Computation(Money(9995000, 0), Money(5000, 0), price,
                                      [Component(id, name, Money(9995000, 0), Money(5000, 0))]))
            && !PrintsExactly(line.value, 2)
  {
    var price, one, none := Money(10 * ONE, 0), Money(ONE, 0), Money(0, 0);
    var tax := TaxDef(id, name, Money(5000, 0), "fixed", true, 0);
    SortOfOne(tax);
    hide DivRoundHalfAway, RoundTo, Unit, Gross, ComputeTaxes, StableSort, PrintsExactly;
    RoundGross(price, one, none);
    FixedTaxTaken(price, one, tax);
    var line := ComputeLine(price, one, none, [tax], 2);
    hide ComputeLine;
    ThirdPlace(line.value);
  }

  lemma ThirdPlace(c: Computation)
    requires c.baseExcluded.u == 9995000
    ensures !PrintsExactly(c, 2)
  {
    assert Unit(2) == 10000 by { Units(); }
  }

  lemma FixedTaxTaken(gross: Money, one: Money, tax: TaxDef)
    requires gross == Money(10 * ONE, 0) && one == Money(ONE, 0)
    requires tax.rate == Money(5000, 0) && tax.amountType == "fixed" && tax.priceInclude
    ensures ComputeTaxes(gross, one, [tax], 2)
         == Ok(Computation(Money(9995000, 0), Money(5000, 0), gross,
                           [Component(tax.id, tax.name, Money(9995000, 0), Money(5000, 0))]))
  {
    var taxes := [tax];
    assert taxes[..0] == [];
    assert Select(taxes, true) == taxes && Select(taxes, false) == [];
    assert DivRoundHalfAway(5000 * ONE, ONE) == 5000 by { RoundOfMultiple(5000, ONE); }
    hide DivRoundHalfAway;
    var s := Sums(Money(0, 0), Money(5000, 0));
    assert InclusiveSums(taxes, one, 0) == Ok(s);
    var base, share := Money(9995000, 0), Money(5000, 0);
    assert UnwoundBase(gross, s, 2) == Ok(base);
    var c := Component(tax.id, tax.name, base, share);
    OnlyShare(tax, base, share, s.rateSum, one);
    assert ExclusiveComponents([], base, one, 2) == Ok([]);
    assert [c] + [] == [c] && [c][..0] == [];
    assert AddUp([c], 0) == Ok(share);
    hide UnwoundBase, InclusiveSums, Distribute, ExclusiveComponents, AddUp, Select;
  }
}
